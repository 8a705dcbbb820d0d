/** The server multiplexer: each bridge is owned either by its record or by one write loop.

    A run interleaves the code between lock acquisitions and awaits: the four public
    operations, a write loop's locked section, one awaited write of a write loop, and the
    closing of a bridge by a write loop or by `dispose`. */
module Multiplexer {
  import opened Basics

  type Id = n: nat | n < 0x1_0000
  type Msg = seq<Byte>
  /** A bridge is a moved value, so a token stands for it. */
  type Bridge = nat

  /** What happened on one bridge. A failed write also discards the rest of its batch. */
  datatype Event = Wrote(msg: Msg) | Failed(msg: Msg) | Discarded(msg: Msg) | Closed

  /** `home` is the bridge the record was registered with and names the record's history;
      `task` is the loop last spawned for it, meaningful while `bridge` is taken. */
  datatype Rec = Rec(id: Id, home: Bridge, bridge: Option<Bridge>, queue: seq<Msg>, task: nat)

  /** A write loop about to lock (no items), writing a batch, closing, or returned. */
  datatype Loop =
    | Running(id: Id, bridge: Bridge, items: seq<Msg>)
    | Closing(bridge: Bridge)
    | Returned

  /** A multiplexer that was disposed of behaves as one with no records, so both are `[]`. */
  datatype State = State(
    recs: seq<Rec>,
    loops: seq<Loop>,
    closing: set<Bridge>,
    hist: map<Bridge, seq<Event>>,
    accepted: map<Bridge, seq<Msg>>)

  datatype Action =
    | Register(id: Id, bridge: Bridge)
    | Remove(id: Id)
    | WriteMessage(id: Id, msg: Msg)
    | Dispose
    | LockSection(task: nat)
    | WriteItem(task: nat, ok: bool)
    | CloseLoop(task: nat)
    | CloseDisposed(bridge: Bridge)
  {
    /** Steps the write loops and `dispose` take by themselves. */
    predicate Internal() {
      LockSection? || WriteItem? || CloseLoop? || CloseDisposed?
    }
  }

  // ---- Specification of the atomic steps ------------------------------------------

  /** Position of the first record with this id, or the number of records. */
  function Find(recs: seq<Rec>, id: Id): (i: nat)
    ensures i <= |recs|
    ensures i < |recs| ==> recs[i].id == id
    ensures forall k :: 0 <= k < i ==> recs[k].id != id
  {
    if recs == [] || recs[0].id == id then 0 else 1 + Find(recs[1..], id)
  }

  function Retain(recs: seq<Rec>, id: Id): seq<Rec> {
    if recs == [] then []
    else if recs[0].id == id then Retain(recs[1..], id)
    else [recs[0]] + Retain(recs[1..], id)
  }

  function Held(recs: seq<Rec>): (bs: set<Bridge>)
    ensures forall b :: b in bs <==> exists i :: 0 <= i < |recs| && recs[i].bridge == Some(b)
  {
    set i | 0 <= i < |recs| && recs[i].bridge.Some? :: recs[i].bridge.value
  }

  function Discards(items: seq<Msg>): (es: seq<Event>)
    ensures |es| == |items|
    ensures forall k :: 0 <= k < |es| ==> es[k] == Discarded(items[k])
  {
    seq(|items|, k requires 0 <= k < |items| => Discarded(items[k]))
  }

  predicate Enabled(s: State, a: Action) {
    match a
    case Register(_, b) => b !in s.hist
    case Remove(_) => true
    case WriteMessage(_, _) => true
    case Dispose => true
    case LockSection(t) => t < |s.loops| && s.loops[t].Running? && s.loops[t].items == []
    case WriteItem(t, _) =>
      t < |s.loops| && s.loops[t].Running? && s.loops[t].items != [] && s.loops[t].bridge in s.hist
    case CloseLoop(t) => t < |s.loops| && s.loops[t].Closing? && s.loops[t].bridge in s.hist
    case CloseDisposed(b) => b in s.closing && b in s.hist
  }

  function StepRegister(s: State, id: Id, b: Bridge): State {
    s.(recs := s.recs + [Rec(id, b, Some(b), [], 0)],
       hist := s.hist[b := []],
       accepted := s.accepted[b := []])
  }

  function StepRemove(s: State, id: Id): State {
    s.(recs := Retain(s.recs, id))
  }

  function StepWrite(s: State, id: Id, msg: Msg): State {
    var recs := s.recs;
    var i := Find(recs, id);
    if i == |recs| then s
    else
      var r := recs[i];
      var task := if r.bridge.Some? then |s.loops| else r.task;
      var s1 := s.(
        recs := recs[i := r.(queue := r.queue + [msg], bridge := None, task := task)],
        accepted := s.accepted[r.home := (if r.home in s.accepted then s.accepted[r.home] else []) + [msg]]);
      if r.bridge.Some? then s1.(loops := s.loops + [Running(id, r.bridge.value, [])]) else s1
  }

  function StepDispose(s: State): State {
    s.(recs := [], closing := s.closing + Held(s.recs))
  }

  function StepLock(s: State, t: nat): State
    requires Enabled(s, LockSection(t))
  {
    var l := s.loops[t];
    var recs := s.recs;
    var i := Find(recs, l.id);
    if i == |recs| then
      s.(loops := s.loops[t := Closing(l.bridge)])
    else if recs[i].queue == [] then
      s.(recs := recs[i := recs[i].(bridge := Some(l.bridge))], loops := s.loops[t := Returned])
    else
      s.(recs := recs[i := recs[i].(queue := [])],
         loops := s.loops[t := Running(l.id, l.bridge, recs[i].queue)])
  }

  function StepItem(s: State, t: nat, ok: bool): State
    requires Enabled(s, WriteItem(t, ok))
  {
    var l := s.loops[t];
    if ok then
      s.(loops := s.loops[t := l.(items := l.items[1..])],
         hist := s.hist[l.bridge := s.hist[l.bridge] + [Wrote(l.items[0])]])
    else
      s.(loops := s.loops[t := l.(items := [])],
         hist := s.hist[l.bridge := s.hist[l.bridge] + [Failed(l.items[0])] + Discards(l.items[1..])])
  }

  function StepCloseLoop(s: State, t: nat): State
    requires Enabled(s, CloseLoop(t))
  {
    var b := s.loops[t].bridge;
    s.(loops := s.loops[t := Returned], hist := s.hist[b := s.hist[b] + [Closed]])
  }

  function StepCloseDisposed(s: State, b: Bridge): State
    requires Enabled(s, CloseDisposed(b))
  {
    s.(closing := s.closing - {b}, hist := s.hist[b := s.hist[b] + [Closed]])
  }

  /** One scheduled step; a step that is not enabled leaves the state alone. */
  function Step(s: State, a: Action): State {
    if !Enabled(s, a) then s else
    match a
    case Register(id, b) => StepRegister(s, id, b)
    case Remove(id) => StepRemove(s, id)
    case WriteMessage(id, m) => StepWrite(s, id, m)
    case Dispose => StepDispose(s)
    case LockSection(t) => StepLock(s, t)
    case WriteItem(t, ok) => StepItem(s, t, ok)
    case CloseLoop(t) => StepCloseLoop(s, t)
    case CloseDisposed(b) => StepCloseDisposed(s, b)
  }

  function Exec(s: State, acts: seq<Action>): State
    decreases |acts|
  {
    if acts == [] then s else Exec(Step(s, acts[0]), acts[1..])
  }

  const Initial := State([], [], {}, map[], map[])

  // ---- Histories --------------------------------------------------------------------

  /** Every message a write was attempted for or that was thrown away, in order. */
  function Msgs(h: seq<Event>): seq<Msg> {
    if h == [] then []
    else if h[|h| - 1].Closed? then Msgs(h[..|h| - 1])
    else Msgs(h[..|h| - 1]) + [h[|h| - 1].msg]
  }

  /** The messages whose write succeeded, in order. */
  function Written(h: seq<Event>): seq<Msg> {
    if h == [] then []
    else if h[|h| - 1].Wrote? then Written(h[..|h| - 1]) + [h[|h| - 1].msg]
    else Written(h[..|h| - 1])
  }

  ghost predicate Open(h: seq<Event>) {
    forall k :: 0 <= k < |h| ==> !h[k].Closed?
  }

  /** Closed exactly once, and nothing happens afterwards. */
  ghost predicate ClosedOnce(h: seq<Event>) {
    h != [] && h[|h| - 1].Closed? && Open(h[..|h| - 1])
  }

  ghost predicate NoFailure(h: seq<Event>) {
    forall k :: 0 <= k < |h| ==> h[k].Wrote? || h[k].Closed?
  }

  lemma {:induction false} MsgsAppend(h: seq<Event>, es: seq<Event>)
    requires Open(es)
    ensures Msgs(h + es) == Msgs(h) + Msgs(es)
  {
    if es == [] {
      assert h + es == h;
    } else {
      assert (h + es)[..|h + es| - 1] == h + es[..|es| - 1];
      MsgsAppend(h, es[..|es| - 1]);
    }
  }

  lemma {:induction false} MsgsOfDiscards(items: seq<Msg>)
    ensures Msgs(Discards(items)) == items
  {
    if items != [] {
      var last := |items| - 1;
      assert Discards(items)[..last] == Discards(items[..last]);
      MsgsOfDiscards(items[..last]);
      assert items == items[..last] + [items[last]];
    }
  }

  lemma {:induction false} MsgsSnoc(h: seq<Event>, e: Event)
    ensures Msgs(h + [e]) == Msgs(h) + (if e.Closed? then [] else [e.msg])
  {
    assert (h + [e])[..|h|] == h;
  }

  /** A failed write and its discards account for the whole batch. */
  lemma MsgsOfFailure(h: seq<Event>, items: seq<Msg>)
    requires items != []
    ensures Msgs(h + [Failed(items[0])] + Discards(items[1..])) == Msgs(h) + items
  {
    var first, rest := h + [Failed(items[0])], Discards(items[1..]);
    MsgsAppend(first, rest);
    MsgsOfDiscards(items[1..]);
    MsgsSnoc(h, Failed(items[0]));
    assert Msgs(first + rest) == Msgs(h) + ([items[0]] + items[1..]);
    assert items == [items[0]] + items[1..];
  }

  /** What is written is a subsequence of what was handled, and all of it when no write failed. */
  lemma {:induction false} WrittenIsSubsequence(h: seq<Event>)
    ensures Subsequence(Written(h), Msgs(h))
    ensures NoFailure(h) ==> Written(h) == Msgs(h)
  {
    if h != [] {
      var front := h[..|h| - 1];
      WrittenIsSubsequence(front);
      if !h[|h| - 1].Closed? {
        SubsequenceSnoc(Written(front), Msgs(front), h[|h| - 1].msg);
      }
    }
  }

  // ---- The ownership and FIFO invariant -------------------------------------------------

  /** The record holds its bridge, has nothing queued, and no loop runs for its id. */
  ghost predicate Idle(s: State, r: Rec) {
    && r.bridge == Some(r.home) && r.queue == []
    && r.home !in s.closing
    && (forall t :: 0 <= t < |s.loops| && !s.loops[t].Returned? ==> s.loops[t].bridge != r.home)
    && (forall t :: 0 <= t < |s.loops| && s.loops[t].Running? ==> s.loops[t].id != r.id)
  }

  /** The record's bridge is with a running loop for its id. */
  ghost predicate Busy(s: State, r: Rec) {
    && r.bridge.None? && r.task < |s.loops| && s.loops[r.task].Running?
    && s.loops[r.task].id == r.id && s.loops[r.task].bridge == r.home
  }

  ghost predicate RecordsOk(s: State) {
    && (forall i, j :: 0 <= i < j < |s.recs| ==> s.recs[i].id != s.recs[j].id && s.recs[i].home != s.recs[j].home)
    && (forall i :: 0 <= i < |s.recs| ==> s.recs[i].home in s.hist && Open(s.hist[s.recs[i].home]))
    && (forall i :: 0 <= i < |s.recs| ==> Idle(s, s.recs[i]) || Busy(s, s.recs[i]))
  }

  ghost predicate LoopsOk(s: State) {
    && (forall t :: 0 <= t < |s.loops| && !s.loops[t].Returned? ==>
          s.loops[t].bridge in s.hist && Open(s.hist[s.loops[t].bridge]) && s.loops[t].bridge !in s.closing)
    && (forall t, u :: 0 <= t < u < |s.loops| && !s.loops[t].Returned? && !s.loops[u].Returned? ==>
          s.loops[t].bridge != s.loops[u].bridge)
    && (forall t, u :: 0 <= t < u < |s.loops| && s.loops[t].Running? && s.loops[u].Running? ==>
          s.loops[t].id != s.loops[u].id)
  }

  ghost predicate HistoriesOk(s: State) {
    && s.hist.Keys == s.accepted.Keys
    && (forall b :: b in s.closing ==> b in s.hist && Open(s.hist[b]))
    && (forall b :: b in s.hist ==> Open(s.hist[b]) || ClosedOnce(s.hist[b]))
  }

  /** Nothing accepted is lost or reordered on its way through batch and queue. */
  ghost predicate ConservedFor(s: State, r: Rec) {
    r.home in s.hist && r.home in s.accepted &&
    s.accepted[r.home] ==
      Msgs(s.hist[r.home]) + (if Busy(s, r) then s.loops[r.task].items else []) + r.queue
  }

  ghost predicate BatchOk(s: State, l: Loop) {
    l.Running? ==>
      l.bridge in s.hist && l.bridge in s.accepted && Prefix(Msgs(s.hist[l.bridge]) + l.items, s.accepted[l.bridge])
  }

  ghost predicate RecordsConserved(s: State) {
    forall i :: 0 <= i < |s.recs| ==> ConservedFor(s, s.recs[i])
  }

  ghost predicate BatchesOk(s: State) {
    && (forall t :: 0 <= t < |s.loops| ==> BatchOk(s, s.loops[t]))
    && (forall b :: b in s.hist && b in s.accepted ==> Prefix(Msgs(s.hist[b]), s.accepted[b]))
  }

  ghost predicate Conserved(s: State) {
    RecordsConserved(s) && BatchesOk(s)
  }

  /** Every bridge has one owner, and only open bridges are owned. */
  ghost predicate Owned(s: State) {
    RecordsOk(s) && LoopsOk(s) && HistoriesOk(s)
  }

  ghost predicate Inv(s: State) {
    Owned(s) && Conserved(s)
  }

  // ---- Every step keeps the invariant ---------------------------------------------------

  /** What `register` needs of its caller: no record and no running loop uses the id. */
  predicate FreshId(s: State, id: Id) {
    && Find(s.recs, id) == |s.recs|
    && (forall t :: 0 <= t < |s.loops| && s.loops[t].Running? ==> s.loops[t].id != id)
  }

  lemma RegisterOwned(s: State, id: Id, b: Bridge)
    requires Owned(s) && Enabled(s, Register(id, b)) && FreshId(s, id)
    ensures Owned(StepRegister(s, id, b))
  {
    var s' := StepRegister(s, id, b);
    assert Idle(s', s'.recs[|s.recs|]);
  }

  lemma RegisterConserved(s: State, id: Id, b: Bridge)
    requires Inv(s) && Enabled(s, Register(id, b)) && FreshId(s, id)
    ensures Conserved(StepRegister(s, id, b))
  {
    var s' := StepRegister(s, id, b);
    forall i | 0 <= i < |s'.recs| ensures ConservedFor(s', s'.recs[i]) {
      if i < |s.recs| {
        assert ConservedFor(s, s.recs[i]);
        assert Idle(s, s.recs[i]) || Busy(s, s.recs[i]);
      }
    }
    forall t | 0 <= t < |s.loops| ensures BatchOk(s', s.loops[t]) {
      assert BatchOk(s, s.loops[t]);
    }
  }

  /** All but the `i`-th record, or all when there is none. */
  function DropAt(recs: seq<Rec>, i: nat): seq<Rec> {
    if recs == [] then [] else if i == 0 then recs[1..] else [recs[0]] + DropAt(recs[1..], i - 1)
  }

  lemma {:induction false} DropAtIndex(recs: seq<Rec>, i: nat)
    ensures i >= |recs| ==> DropAt(recs, i) == recs
    ensures i < |recs| ==> |DropAt(recs, i)| == |recs| - 1
    ensures i < |recs| ==> forall k :: 0 <= k < |recs| - 1 ==> DropAt(recs, i)[k] == recs[if k < i then k else k + 1]
  {
    if recs != [] && i > 0 {
      DropAtIndex(recs[1..], i - 1);
    }
  }

  /** With distinct ids `retain` removes at most one record and keeps the others in place. */
  lemma {:induction false} RetainOne(recs: seq<Rec>, id: Id)
    requires forall i, j :: 0 <= i < j < |recs| ==> recs[i].id != recs[j].id
    ensures Retain(recs, id) == DropAt(recs, Find(recs, id))
  {
    if recs != [] {
      var rest := recs[1..];
      RetainOne(rest, id);
      if recs[0].id == id {
        assert forall k :: 0 <= k < |rest| ==> rest[k] == recs[k + 1];
        DropAtIndex(rest, Find(rest, id));
      }
    }
  }

  /** Dropping one record, its bridge included if it was at home, disowns nothing else. */
  lemma DropRecordOwned(s: State, recs: seq<Rec>, i: nat)
    requires Owned(s) && i < |s.recs| && |recs| == |s.recs| - 1
    requires forall k :: 0 <= k < |recs| ==> recs[k] == s.recs[if k < i then k else k + 1]
    ensures Owned(s.(recs := recs))
  {
    var s' := s.(recs := recs);
    forall k | 0 <= k < |recs| ensures Idle(s', recs[k]) || Busy(s', recs[k]) {
      var r := s.recs[if k < i then k else k + 1];
      assert Idle(s, r) || Busy(s, r);
    }
  }

  lemma RemoveOwned(s: State, id: Id)
    requires Owned(s)
    ensures Owned(StepRemove(s, id))
  {
    RetainOne(s.recs, id);
    var i, recs := Find(s.recs, id), Retain(s.recs, id);
    DropAtIndex(s.recs, i);
    if i < |s.recs| {
      DropRecordOwned(s, recs, i);
    } else {
      assert recs == s.recs && s.(recs := recs) == s;
    }
  }

  lemma RemoveConserved(s: State, id: Id)
    requires Inv(s)
    ensures Conserved(StepRemove(s, id))
  {
    RetainOne(s.recs, id);
    var s' := StepRemove(s, id);
    var i := Find(s.recs, id);
    DropAtIndex(s.recs, i);
    forall k | 0 <= k < |s'.recs| ensures ConservedFor(s', s'.recs[k]) {
      var j := if k < i then k else k + 1;
      assert s'.recs[k] == s.recs[j] && ConservedFor(s, s.recs[j]);
    }
    forall t | 0 <= t < |s.loops| ensures BatchOk(s', s.loops[t]) {
      assert BatchOk(s, s.loops[t]);
    }
  }

  lemma WriteOwned(s: State, id: Id, msg: Msg)
    requires Owned(s)
    ensures Owned(StepWrite(s, id, msg))
  {
    var s' := StepWrite(s, id, msg);
    var f := Find(s.recs, id);
    if f < |s.recs| {
      assert Idle(s, s.recs[f]) || Busy(s, s.recs[f]);
      assert LoopsOk(s');
      forall i | 0 <= i < |s'.recs| ensures Idle(s', s'.recs[i]) || Busy(s', s'.recs[i]) {
        assert Idle(s, s.recs[i]) || Busy(s, s.recs[i]);
      }
    }
  }

  lemma WriteBatches(s: State, id: Id, msg: Msg)
    requires Inv(s)
    ensures BatchesOk(StepWrite(s, id, msg))
  {
    var s' := StepWrite(s, id, msg);
    var f := Find(s.recs, id);
    if f < |s.recs| {
      var b := s.recs[f].home;
      assert ConservedFor(s, s.recs[f]);
      PrefixExtend(Msgs(s.hist[b]), s.accepted[b], [msg]);
      forall t | 0 <= t < |s.loops| ensures BatchOk(s', s.loops[t]) {
        assert BatchOk(s, s.loops[t]);
        if s.loops[t].Running? && s.loops[t].bridge == b {
          PrefixExtend(Msgs(s.hist[b]) + s.loops[t].items, s.accepted[b], [msg]);
        }
      }
      assert s.recs[f].bridge.Some? ==> BatchOk(s', s'.loops[|s.loops|]);
    }
  }

  lemma WriteRecords(s: State, id: Id, msg: Msg)
    requires Owned(s) && RecordsConserved(s)
    ensures RecordsConserved(StepWrite(s, id, msg))
  {
    var s' := StepWrite(s, id, msg);
    var f := Find(s.recs, id);
    if f < |s.recs| {
      assert ConservedFor(s', s'.recs[f]) by {
        assert ConservedFor(s, s.recs[f]);
        assert Idle(s, s.recs[f]) || Busy(s, s.recs[f]);
      }
      forall i | 0 <= i < |s'.recs| && i != f ensures ConservedFor(s', s'.recs[i]) {
        assert ConservedFor(s, s.recs[i]) && s.recs[i].home != s.recs[f].home;
      }
    }
  }

  lemma DisposeOwned(s: State)
    requires Owned(s)
    ensures Owned(StepDispose(s))
  {
    var recs := s.recs;
    forall b | b in Held(recs)
      ensures b in s.hist && Open(s.hist[b])
      ensures forall t :: 0 <= t < |s.loops| && !s.loops[t].Returned? ==> s.loops[t].bridge != b
    {
      var i :| 0 <= i < |recs| && recs[i].bridge == Some(b);
      assert Idle(s, recs[i]);
    }
  }

  lemma DisposeConserved(s: State)
    requires Inv(s)
    ensures Conserved(StepDispose(s))
  {
    assert forall t :: 0 <= t < |s.loops| ==> BatchOk(s, s.loops[t]);
  }

  /** The record a running loop finds is the one whose bridge it carries. */
  lemma ServedRecord(s: State, t: nat)
    requires Owned(s) && t < |s.loops| && s.loops[t].Running?
    ensures var i := Find(s.recs, s.loops[t].id);
      i < |s.recs| ==> Busy(s, s.recs[i]) && s.recs[i].task == t
  {
    var i := Find(s.recs, s.loops[t].id);
    if i < |s.recs| {
      assert !Idle(s, s.recs[i]);
    }
  }

  /** The record is gone: the loop will close the bridge. */
  lemma LockOwnedGone(s: State, t: nat)
    requires Owned(s) && Enabled(s, LockSection(t)) && Find(s.recs, s.loops[t].id) == |s.recs|
    ensures Owned(StepLock(s, t))
  {
    var s' := StepLock(s, t);
    forall k | 0 <= k < |s'.recs| ensures Idle(s', s'.recs[k]) || Busy(s', s'.recs[k]) {
      assert Idle(s, s.recs[k]) || Busy(s, s.recs[k]);
    }
  }

  /** The queue is empty: the bridge goes back into the record. */
  lemma LockOwnedReturn(s: State, t: nat)
    requires Owned(s) && Enabled(s, LockSection(t))
    requires var f := Find(s.recs, s.loops[t].id); f < |s.recs| && s.recs[f].queue == []
    ensures Owned(StepLock(s, t))
  {
    var s' := StepLock(s, t);
    var f := Find(s.recs, s.loops[t].id);
    ServedRecord(s, t);
    assert Idle(s', s'.recs[f]);
    forall k | 0 <= k < |s'.recs| && k != f ensures Idle(s', s'.recs[k]) || Busy(s', s'.recs[k]) {
      assert Idle(s, s.recs[k]) || Busy(s, s.recs[k]);
    }
  }

  /** The queue becomes the loop's batch. */
  lemma LockOwnedSwap(s: State, t: nat)
    requires Owned(s) && Enabled(s, LockSection(t))
    requires var f := Find(s.recs, s.loops[t].id); f < |s.recs| && s.recs[f].queue != []
    ensures Owned(StepLock(s, t))
  {
    var s' := StepLock(s, t);
    ServedRecord(s, t);
    forall k | 0 <= k < |s'.recs| ensures Idle(s', s'.recs[k]) || Busy(s', s'.recs[k]) {
      assert Idle(s, s.recs[k]) || Busy(s, s.recs[k]);
    }
  }

  lemma LockOwned(s: State, t: nat)
    requires Owned(s) && Enabled(s, LockSection(t))
    ensures Owned(StepLock(s, t))
  {
    var f := Find(s.recs, s.loops[t].id);
    if f == |s.recs| {
      LockOwnedGone(s, t);
    } else if s.recs[f].queue == [] {
      LockOwnedReturn(s, t);
    } else {
      LockOwnedSwap(s, t);
    }
  }

  lemma LockRecords(s: State, t: nat)
    requires Owned(s) && RecordsConserved(s) && Enabled(s, LockSection(t))
    ensures RecordsConserved(StepLock(s, t))
  {
    var s' := StepLock(s, t);
    var f := Find(s.recs, s.loops[t].id);
    ServedRecord(s, t);
    forall i | 0 <= i < |s'.recs| ensures ConservedFor(s', s'.recs[i]) {
      assert ConservedFor(s, s.recs[i]);
      if i != f {
        assert s.recs[i].bridge.None? ==> s.recs[i].task != t;
      }
    }
  }

  lemma LockBatches(s: State, t: nat)
    requires Inv(s) && Enabled(s, LockSection(t))
    ensures BatchesOk(StepLock(s, t))
  {
    var s' := StepLock(s, t);
    var f := Find(s.recs, s.loops[t].id);
    ServedRecord(s, t);
    if f < |s.recs| {
      assert ConservedFor(s, s.recs[f]);
    }
    forall u | 0 <= u < |s'.loops| ensures BatchOk(s', s'.loops[u]) {
      assert BatchOk(s, s.loops[u]);
    }
  }

  lemma ItemOwned(s: State, t: nat, ok: bool)
    requires Owned(s) && Enabled(s, WriteItem(t, ok))
    ensures Owned(StepItem(s, t, ok))
  {
    var s' := StepItem(s, t, ok);
    assert Open(s'.hist[s.loops[t].bridge]);
  }

  /** One attempted write moves messages from the batch to what was handled. */
  lemma ItemHandled(s: State, t: nat, ok: bool)
    requires Enabled(s, WriteItem(t, ok))
    ensures var s' := StepItem(s, t, ok);
      var b := s.loops[t].bridge;
      Msgs(s'.hist[b]) + s'.loops[t].items == Msgs(s.hist[b]) + s.loops[t].items
  {
    var l := s.loops[t];
    if ok {
      MsgsSnoc(s.hist[l.bridge], Wrote(l.items[0]));
    } else {
      MsgsOfFailure(s.hist[l.bridge], l.items);
    }
    assert l.items == [l.items[0]] + l.items[1..];
  }

  lemma ItemRecord(s: State, t: nat, ok: bool, i: nat)
    requires Owned(s) && Enabled(s, WriteItem(t, ok)) && i < |s.recs| && ConservedFor(s, s.recs[i])
    ensures ConservedFor(StepItem(s, t, ok), s.recs[i])
  {
    var s', r := StepItem(s, t, ok), s.recs[i];
    if r.bridge.None? && r.task == t {
      ItemHandled(s, t, ok);
      assert Busy(s, r) && Busy(s', r);
    } else {
      assert r.home != s.loops[t].bridge;
      assert s'.hist[r.home] == s.hist[r.home] && (Busy(s', r) <==> Busy(s, r));
    }
  }

  lemma ItemRecords(s: State, t: nat, ok: bool)
    requires Owned(s) && RecordsConserved(s) && Enabled(s, WriteItem(t, ok))
    ensures RecordsConserved(StepItem(s, t, ok))
  {
    forall i | 0 <= i < |s.recs| ensures ConservedFor(StepItem(s, t, ok), s.recs[i]) {
      ItemRecord(s, t, ok, i);
    }
  }

  lemma ItemBatch(s: State, t: nat, ok: bool)
    requires BatchesOk(s) && Enabled(s, WriteItem(t, ok)) && s.loops[t].bridge in s.accepted
    ensures var s' := StepItem(s, t, ok);
      var b := s.loops[t].bridge;
      && Prefix(Msgs(s'.hist[b]) + s'.loops[t].items, s.accepted[b])
      && Prefix(Msgs(s'.hist[b]), s.accepted[b])
  {
    var s' := StepItem(s, t, ok);
    var b := s.loops[t].bridge;
    ItemHandled(s, t, ok);
    assert BatchOk(s, s.loops[t]);
    PrefixTrim(Msgs(s'.hist[b]), s'.loops[t].items, s.accepted[b]);
  }

  lemma ItemBatches(s: State, t: nat, ok: bool)
    requires LoopsOk(s) && BatchesOk(s) && Enabled(s, WriteItem(t, ok)) && s.hist.Keys == s.accepted.Keys
    ensures BatchesOk(StepItem(s, t, ok))
  {
    var s' := StepItem(s, t, ok);
    var b := s.loops[t].bridge;
    ItemBatch(s, t, ok);
    forall u | 0 <= u < |s'.loops| ensures BatchOk(s', s'.loops[u]) {
      if u != t {
        assert s'.loops[u] == s.loops[u] && BatchOk(s, s.loops[u]);
        assert s.loops[u].Running? ==> s.loops[u].bridge != b && s'.hist[s.loops[u].bridge] == s.hist[s.loops[u].bridge];
      }
    }
    forall c | c in s'.hist && c in s'.accepted ensures Prefix(Msgs(s'.hist[c]), s'.accepted[c]) {
      if c != b {
        assert s'.hist[c] == s.hist[c];
      }
    }
  }

  lemma CloseLoopOwned(s: State, t: nat)
    requires Owned(s) && Enabled(s, CloseLoop(t))
    ensures Owned(StepCloseLoop(s, t))
  {
    var s' := StepCloseLoop(s, t);
    var b := s.loops[t].bridge;
    assert s'.hist[b][..|s'.hist[b]| - 1] == s.hist[b];
  }

  lemma CloseDisposedOwned(s: State, b: Bridge)
    requires Owned(s) && Enabled(s, CloseDisposed(b))
    ensures Owned(StepCloseDisposed(s, b))
  {
    var s' := StepCloseDisposed(s, b);
    assert s'.hist[b][..|s'.hist[b]| - 1] == s.hist[b];
  }

  /** Closing adds nothing to what was handled. */
  lemma CloseLoopConserved(s: State, t: nat)
    requires Inv(s) && Enabled(s, CloseLoop(t))
    ensures Conserved(StepCloseLoop(s, t))
  {
    var s' := StepCloseLoop(s, t);
    MsgsSnoc(s.hist[s.loops[t].bridge], Closed);
    forall i | 0 <= i < |s'.recs| ensures ConservedFor(s', s'.recs[i]) {
      assert ConservedFor(s, s.recs[i]);
    }
    forall u | 0 <= u < |s'.loops| ensures BatchOk(s', s'.loops[u]) {
      assert BatchOk(s, s.loops[u]);
    }
  }

  lemma CloseDisposedConserved(s: State, b: Bridge)
    requires Inv(s) && Enabled(s, CloseDisposed(b))
    ensures Conserved(StepCloseDisposed(s, b))
  {
    var s' := StepCloseDisposed(s, b);
    MsgsSnoc(s.hist[b], Closed);
    forall i | 0 <= i < |s'.recs| ensures ConservedFor(s', s'.recs[i]) {
      assert ConservedFor(s, s.recs[i]);
    }
    forall u | 0 <= u < |s'.loops| ensures BatchOk(s', s'.loops[u]) {
      assert BatchOk(s, s.loops[u]);
    }
  }

  // ---- Runs --------------------------------------------------------------------------------

  lemma {:induction false} ExecSnoc(s: State, acts: seq<Action>, a: Action)
    ensures Exec(s, acts + [a]) == Step(Exec(s, acts), a)
    decreases |acts|
  {
    if acts == [] {
      assert [a][1..] == [];
    } else {
      assert (acts + [a])[1..] == acts[1..] + [a];
      ExecSnoc(Step(s, acts[0]), acts[1..], a);
    }
  }

  /** In this run every `register` uses an id that is free at that moment. */
  ghost predicate Disciplined(s: State, acts: seq<Action>)
    decreases |acts|
  {
    acts == [] ||
    ((acts[0].Register? ==> FreshId(s, acts[0].id)) && Disciplined(Step(s, acts[0]), acts[1..]))
  }

  lemma StepKeeps(s: State, a: Action)
    requires Inv(s) && (a.Register? ==> FreshId(s, a.id))
    ensures Inv(Step(s, a))
  {
    if Enabled(s, a) {
      match a
      case Register(id, b) => RegisterOwned(s, id, b); RegisterConserved(s, id, b);
      case Remove(id) => RemoveOwned(s, id); RemoveConserved(s, id);
      case WriteMessage(id, m) => WriteOwned(s, id, m); WriteRecords(s, id, m); WriteBatches(s, id, m);
      case Dispose => DisposeOwned(s); DisposeConserved(s);
      case LockSection(t) => LockOwned(s, t); LockRecords(s, t); LockBatches(s, t);
      case WriteItem(t, ok) => ItemOwned(s, t, ok); ItemRecords(s, t, ok); ItemBatches(s, t, ok);
      case CloseLoop(t) => CloseLoopOwned(s, t); CloseLoopConserved(s, t);
      case CloseDisposed(b) => CloseDisposedOwned(s, b); CloseDisposedConserved(s, b);
    }
  }

  lemma {:induction false} RunKeeps(s: State, acts: seq<Action>)
    requires Inv(s) && Disciplined(s, acts)
    ensures Inv(Exec(s, acts))
    decreases |acts|
  {
    if acts != [] {
      StepKeeps(s, acts[0]);
      RunKeeps(Step(s, acts[0]), acts[1..]);
    }
  }

  /** In every run, a live record either has its bridge, an empty queue and no loop of its id,
      or its bridge is with exactly one running loop of its id. */
  lemma OneOwnerInEveryRun(acts: seq<Action>, i: nat)
    requires Disciplined(Initial, acts) && i < |Exec(Initial, acts).recs|
    ensures var s := Exec(Initial, acts);
      var r := s.recs[i];
      if r.bridge.Some? then
        r.queue == [] && forall t :: 0 <= t < |s.loops| && s.loops[t].Running? ==> s.loops[t].id != r.id
      else
        && r.task < |s.loops| && s.loops[r.task].Running? && s.loops[r.task].bridge == r.home
        && forall t :: 0 <= t < |s.loops| && s.loops[t].Running? ==> (s.loops[t].id == r.id <==> t == r.task)
  {
    RunKeeps(Initial, acts);
    var s := Exec(Initial, acts);
    assert Idle(s, s.recs[i]) || Busy(s, s.recs[i]);
  }

  /** In every run, what was written on a bridge is a subsequence of what was accepted for it, a
      prefix when no write failed, and for a live record nothing accepted is missing: it was
      handled, is in the loop's batch, or is queued, in that order. */
  lemma WritesInOrderInEveryRun(acts: seq<Action>, b: Bridge)
    requires Disciplined(Initial, acts) && b in Exec(Initial, acts).hist
    ensures var s := Exec(Initial, acts);
      && b in s.accepted
      && Subsequence(Written(s.hist[b]), s.accepted[b])
      && (NoFailure(s.hist[b]) ==> Prefix(Written(s.hist[b]), s.accepted[b]))
      && (forall i :: 0 <= i < |s.recs| && s.recs[i].home == b && NoFailure(s.hist[b]) ==>
            s.accepted[b] ==
              Written(s.hist[b]) + (if Busy(s, s.recs[i]) then s.loops[s.recs[i].task].items else []) + s.recs[i].queue)
  {
    RunKeeps(Initial, acts);
    var s := Exec(Initial, acts);
    WrittenIsSubsequence(s.hist[b]);
    assert Prefix(Msgs(s.hist[b]), s.accepted[b]);
    SubsequenceOfPrefix(Written(s.hist[b]), Msgs(s.hist[b]), s.accepted[b]);
    assert forall i :: 0 <= i < |s.recs| ==> ConservedFor(s, s.recs[i]);
  }

  // ---- When is `register` safe? ------------------------------------------------------------

  /** Registering keeps the ownership invariant exactly when the id is free: no record has it and
      no running loop would still look it up. */
  lemma RegisterSafeIffFresh(s: State, id: Id, b: Bridge)
    requires Inv(s) && Enabled(s, Register(id, b))
    ensures Inv(StepRegister(s, id, b)) <==> FreshId(s, id)
  {
    if FreshId(s, id) {
      RegisterOwned(s, id, b);
      RegisterConserved(s, id, b);
    } else {
      var s' := StepRegister(s, id, b);
      var n := |s.recs|;
      if Find(s.recs, id) < n {
        assert s'.recs[Find(s.recs, id)].id == s'.recs[n].id;
      } else {
        assert !Idle(s', s'.recs[n]);
      }
    }
  }

  lemma ExecCons(s: State, a: Action, rest: seq<Action>)
    ensures Exec(s, [a] + rest) == Exec(Step(s, a), rest)
  {
    assert ([a] + rest)[1..] == rest;
  }

  lemma ExecTwo(s: State, a: Action, b: Action)
    ensures Exec(s, [a, b]) == Step(Step(s, a), b)
  {
    assert [a, b] == [a] + [b];
    ExecCons(s, a, [b]);
  }

  lemma ExecFive(s: State, a: Action, b: Action, c: Action, d: Action, e: Action)
    ensures Exec(s, [a, b, c, d, e]) == Step(Step(Step(Step(Step(s, a), b), c), d), e)
  {
    assert [a, b, c, d, e] == [a] + [b, c, d, e] && [b, c, d, e] == [b] + [c, d, e] && [c, d, e] == [c] + [d, e];
    ExecCons(s, a, [b, c, d, e]);
    ExecCons(Step(s, a), b, [c, d, e]);
    ExecCons(Step(Step(s, a), b), c, [d, e]);
    ExecTwo(Step(Step(Step(s, a), b), c), d, e);
  }

  /** The id of a removed record is reused while its loop still runs: the old loop puts its bridge
      into the new record, and the new bridge is lost without being closed. */
  lemma ReusedIdLosesABridge(m: Msg)
    ensures var s := Exec(Initial, [Register(7, 1), WriteMessage(7, m), Remove(7), Register(7, 2), LockSection(0)]);
      && |s.recs| == 1 && s.recs[0].home == 2 && s.recs[0].bridge == Some(1)
      && s.loops == [Returned] && s.closing == {} && 2 in s.hist && s.hist[2] == []
  {
    var s1 := Step(Initial, Register(7, 1));
    assert s1.recs == [Rec(7, 1, Some(1), [], 0)];
    var s2 := Step(s1, WriteMessage(7, m));
    assert Find(s1.recs, 7) == 0;
    assert s2.recs[0] == Rec(7, 1, None, [m], 0);
    assert s2.recs == [Rec(7, 1, None, [m], 0)] && s2.loops == [Running(7, 1, [])];
    var s3 := Step(s2, Remove(7));
    assert Find(s2.recs, 7) == 0;
    RetainOne(s2.recs, 7);
    assert s3.recs == [];
    var s4 := Step(s3, Register(7, 2));
    assert s4.recs == [Rec(7, 2, Some(2), [], 0)] && s4.loops == [Running(7, 1, [])];
    var s5 := Step(s4, LockSection(0));
    ExecFive(Initial, Register(7, 1), WriteMessage(7, m), Remove(7), Register(7, 2), LockSection(0));
    assert Find(s4.recs, 7) == 0;
    assert s5.recs == [Rec(7, 2, Some(1), [], 0)] && s5.loops == [Returned];
  }

  // ---- Progress and disposal ---------------------------------------------------------------

  function LoopWork(l: Loop): nat {
    match l
    case Running(_, _, items) => 2 + |items|
    case Closing(_) => 1
    case Returned => 0
  }

  function LoopsWork(loops: seq<Loop>): nat {
    if loops == [] then 0 else LoopWork(loops[0]) + LoopsWork(loops[1..])
  }

  function Queued(recs: seq<Rec>): nat {
    if recs == [] then 0 else 2 * |recs[0].queue| + Queued(recs[1..])
  }

  /** What is in flight or queued, in units of work. */
  function Work(s: State): nat {
    LoopsWork(s.loops) + Queued(s.recs) + |s.closing|
  }

  lemma {:induction false} LoopsWorkUpdate(loops: seq<Loop>, t: nat, l: Loop)
    requires t < |loops|
    ensures LoopsWork(loops[t := l]) == LoopsWork(loops) - LoopWork(loops[t]) + LoopWork(l)
  {
    if t == 0 {
      assert loops[0 := l][1..] == loops[1..];
    } else {
      assert loops[t := l][1..] == loops[1..][t - 1 := l];
      LoopsWorkUpdate(loops[1..], t - 1, l);
    }
  }

  lemma {:induction false} QueuedUpdate(recs: seq<Rec>, i: nat, r: Rec)
    requires i < |recs|
    ensures Queued(recs[i := r]) == Queued(recs) - 2 * |recs[i].queue| + 2 * |r.queue|
  {
    if i == 0 {
      assert recs[0 := r][1..] == recs[1..];
    } else {
      assert recs[i := r][1..] == recs[1..][i - 1 := r];
      QueuedUpdate(recs[1..], i - 1, r);
    }
  }

  lemma LockUsesUpWork(s: State, t: nat)
    requires Enabled(s, LockSection(t))
    ensures Work(StepLock(s, t)) < Work(s)
  {
    var i, l := Find(s.recs, s.loops[t].id), s.loops[t];
    if i == |s.recs| {
      LoopsWorkUpdate(s.loops, t, Closing(l.bridge));
    } else if s.recs[i].queue == [] {
      LoopsWorkUpdate(s.loops, t, Returned);
      QueuedUpdate(s.recs, i, s.recs[i].(bridge := Some(l.bridge)));
    } else {
      LoopsWorkUpdate(s.loops, t, Running(l.id, l.bridge, s.recs[i].queue));
      QueuedUpdate(s.recs, i, s.recs[i].(queue := []));
    }
  }

  lemma ItemUsesUpWork(s: State, t: nat, ok: bool)
    requires Enabled(s, WriteItem(t, ok))
    ensures Work(StepItem(s, t, ok)) < Work(s)
  {
    var l := s.loops[t];
    LoopsWorkUpdate(s.loops, t, if ok then l.(items := l.items[1..]) else l.(items := []));
  }

  /** Every step of a loop or of `dispose` uses up work, in any state, so without new messages
      every loop ends. */
  lemma InternalStepsUseUpWork(s: State, a: Action)
    requires Enabled(s, a) && a.Internal()
    ensures Work(Step(s, a)) < Work(s)
  {
    match a
    case LockSection(t) => LockUsesUpWork(s, t);
    case WriteItem(t, ok) => ItemUsesUpWork(s, t, ok);
    case CloseLoop(t) => LoopsWorkUpdate(s.loops, t, Returned);
    case CloseDisposed(b) =>
  }

  /** All loops returned and everything disposed of is closed. */
  ghost predicate Settled(s: State) {
    s.closing == {} && forall t :: 0 <= t < |s.loops| ==> s.loops[t].Returned?
  }

  /** Loops never get stuck: as long as work remains, some loop or `dispose` can take a step. */
  lemma UnsettledCanStep(s: State) returns (a: Action)
    requires Inv(s) && !Settled(s)
    ensures a.Internal() && Enabled(s, a)
  {
    if s.closing != {} {
      var b :| b in s.closing;
      a := CloseDisposed(b);
    } else {
      var t :| 0 <= t < |s.loops| && !s.loops[t].Returned?;
      a := if s.loops[t].Closing? then CloseLoop(t)
        else if s.loops[t].items == [] then LockSection(t) else WriteItem(t, true);
    }
  }

  /** Once settled, every live record has its bridge back and every accepted message was handled. */
  lemma SettledIsDrained(acts: seq<Action>, i: nat)
    requires Disciplined(Initial, acts)
    requires Settled(Exec(Initial, acts)) && i < |Exec(Initial, acts).recs|
    ensures var s := Exec(Initial, acts);
      var r := s.recs[i];
      && r.bridge == Some(r.home) && r.queue == []
      && r.home in s.hist && r.home in s.accepted && Msgs(s.hist[r.home]) == s.accepted[r.home]
  {
    RunKeeps(Initial, acts);
    var s := Exec(Initial, acts);
    var r := s.recs[i];
    assert ConservedFor(s, r) && (Idle(s, r) || Busy(s, r));
    assert !Busy(s, r);
    assert Msgs(s.hist[r.home]) + [] + [] == Msgs(s.hist[r.home]);
  }

  /** Some record, loop or `dispose` still owns the bridge. */
  ghost predicate Owner(s: State, b: Bridge) {
    || b in s.closing
    || (exists i :: 0 <= i < |s.recs| && s.recs[i].bridge == Some(b))
    || (exists t :: 0 <= t < |s.loops| && !s.loops[t].Returned? && s.loops[t].bridge == b)
  }

  lemma LoopOwnsUntilClosed(s: State, a: Action, b: Bridge, t: nat)
    requires LoopsOk(s) && s.recs == [] && !a.Register? && Enabled(s, a)
    requires t < |s.loops| && !s.loops[t].Returned? && s.loops[t].bridge == b
    ensures Owner(Step(s, a), b) || (b in Step(s, a).hist && ClosedOnce(Step(s, a).hist[b]))
  {
    var s' := Step(s, a);
    if a == CloseLoop(t) {
      assert s'.hist[b] == s.hist[b] + [Closed] && s'.hist[b][..|s'.hist[b]| - 1] == s.hist[b];
    } else {
      assert !s'.loops[t].Returned? && s'.loops[t].bridge == b;
    }
  }

  /** With no record left, a bridge stays owned until the step that closes it. */
  lemma OwnedUntilClosed(s: State, a: Action, b: Bridge)
    requires Inv(s) && s.recs == [] && !a.Register? && Owner(s, b)
    ensures Step(s, a).recs == []
    ensures Owner(Step(s, a), b) || (b in Step(s, a).hist && ClosedOnce(Step(s, a).hist[b]))
  {
    if Enabled(s, a) {
      if b !in s.closing {
        var t :| 0 <= t < |s.loops| && !s.loops[t].Returned? && s.loops[t].bridge == b;
        LoopOwnsUntilClosed(s, a, b, t);
      } else if a == CloseDisposed(b) {
        var h := s.hist[b] + [Closed];
        assert h[..|h| - 1] == s.hist[b];
      }
    }
  }

  /** A closed bridge is never written or closed again. */
  lemma ClosedStaysClosed(s: State, a: Action, b: Bridge)
    requires Inv(s) && !a.Register? && b in s.hist && ClosedOnce(s.hist[b])
    ensures b in Step(s, a).hist && Step(s, a).hist[b] == s.hist[b]
  {
    assert !Open(s.hist[b]) by {
      assert s.hist[b][|s.hist[b]| - 1].Closed?;
    }
  }

  lemma {:induction false} AfterDispose(s: State, acts: seq<Action>, b: Bridge)
    requires Inv(s) && s.recs == [] && (forall k :: 0 <= k < |acts| ==> !acts[k].Register?)
    requires Owner(s, b) || (b in s.hist && ClosedOnce(s.hist[b]))
    ensures var s' := Exec(s, acts);
      Inv(s') && s'.recs == [] && (Owner(s', b) || (b in s'.hist && ClosedOnce(s'.hist[b])))
    decreases |acts|
  {
    if acts != [] {
      var a := acts[0];
      StepKeeps(s, a);
      if b in s.hist && ClosedOnce(s.hist[b]) {
        ClosedStaysClosed(s, a, b);
        RetainOne(s.recs, if a.Remove? then a.id else 0);
      } else {
        OwnedUntilClosed(s, a, b);
      }
      AfterDispose(Step(s, a), acts[1..], b);
    }
  }

  lemma DisposeKeepsOwners(s: State, b: Bridge)
    requires Owner(s, b)
    ensures Owner(StepDispose(s), b)
  {
    if b !in StepDispose(s).closing {
      var t :| 0 <= t < |s.loops| && !s.loops[t].Returned? && s.loops[t].bridge == b;
      assert StepDispose(s).loops[t] == s.loops[t];
    }
  }

  lemma SettledOwnsNothing(s: State, b: Bridge)
    requires Settled(s) && s.recs == []
    ensures !Owner(s, b)
  {
  }

  /** After `dispose` and with no later `register`, however the rest is scheduled: a bridge that
      was owned when it was disposed of is closed exactly once, after its last write, as soon as
      the loops and `dispose` have finished. */
  lemma DisposeClosesEverything(before: seq<Action>, after: seq<Action>, b: Bridge)
    requires Disciplined(Initial, before) && Owner(Exec(Initial, before), b)
    requires forall k :: 0 <= k < |after| ==> !after[k].Register?
    ensures var s := Exec(StepDispose(Exec(Initial, before)), after);
      Settled(s) ==> b in s.hist && ClosedOnce(s.hist[b])
  {
    RunKeeps(Initial, before);
    var s := Exec(Initial, before);
    DisposeOwned(s);
    DisposeConserved(s);
    DisposeKeepsOwners(s, b);
    AfterDispose(StepDispose(s), after, b);
    if Settled(Exec(StepDispose(s), after)) {
      SettledOwnsNothing(Exec(StepDispose(s), after), b);
    }
  }

  // ---- What the callers said --------------------------------------------------------------------

  ghost predicate IsFirst(recs: seq<Rec>, id: Id, i: nat) {
    i < |recs| && recs[i].id == id && forall k :: 0 <= k < i ==> recs[k].id != id
  }

  /** A message to the id is one for the bridge: the first record of the id was registered with it. */
  ghost predicate Addressed(s: State, id: Id, b: Bridge) {
    exists i: nat :: IsFirst(s.recs, id, i) && s.recs[i].home == b
  }

  /** The messages of all calls that were for the bridge, in the order of the calls. */
  ghost function Told(acts: seq<Action>, b: Bridge): seq<Msg> {
    if acts == [] then []
    else
      var front, a := acts[..|acts| - 1], acts[|acts| - 1];
      Told(front, b) + (if a.WriteMessage? && Addressed(Exec(Initial, front), a.id, b) then [a.msg] else [])
  }

  ghost predicate Known(s: State) {
    s.hist.Keys == s.accepted.Keys && forall i :: 0 <= i < |s.recs| ==> s.recs[i].home in s.hist
  }

  lemma FirstIsFound(recs: seq<Rec>, id: Id, i: nat)
    ensures IsFirst(recs, id, i) <==> i == Find(recs, id) < |recs|
  {
    if IsFirst(recs, id, i) {
      FindIs(recs, id, i);
    }
  }

  lemma FirstsAreOne(recs: seq<Rec>, id: Id)
    ensures forall i: nat :: IsFirst(recs, id, i) ==> i == Find(recs, id)
  {
    forall i: nat | IsFirst(recs, id, i) ensures i == Find(recs, id) {
      FirstIsFound(recs, id, i);
    }
  }

  lemma {:induction false} RetainMembers(recs: seq<Rec>, id: Id)
    ensures forall r :: r in Retain(recs, id) <==> r in recs && r.id != id
    ensures Subsequence(Retain(recs, id), recs)
  {
    if recs != [] {
      RetainMembers(recs[1..], id);
      assert forall r :: r in recs <==> r == recs[0] || r in recs[1..];
      if recs[0].id != id {
        assert Retain(recs, id)[1..] == Retain(recs[1..], id);
      }
    }
  }

  lemma KnownWrite(s: State, id: Id, msg: Msg, b: Bridge)
    requires Known(s)
    ensures Known(StepWrite(s, id, msg)) && StepWrite(s, id, msg).hist == s.hist
    ensures b in s.hist ==>
      StepWrite(s, id, msg).accepted[b] == s.accepted[b] + (if Addressed(s, id, b) then [msg] else [])
    ensures Addressed(s, id, b) ==> b in s.hist
  {
    var i := Find(s.recs, id);
    FirstIsFound(s.recs, id, i);
    FirstsAreOne(s.recs, id);
    if i < |s.recs| {
      assert IsFirst(s.recs, id, i);
      assert Addressed(s, id, b) <==> s.recs[i].home == b;
    }
    if !Addressed(s, id, b) && b in s.hist {
      assert s.accepted[b] + [] == s.accepted[b];
    }
  }

  lemma KnownStep(s: State, a: Action, b: Bridge)
    requires Known(s)
    ensures Known(Step(s, a))
    ensures b in s.hist ==>
      && b in Step(s, a).hist
      && Step(s, a).accepted[b] == s.accepted[b] + (if a.WriteMessage? && Addressed(s, a.id, b) then [a.msg] else [])
    ensures b !in s.hist && b in Step(s, a).hist ==> Step(s, a).accepted[b] == []
    ensures b !in s.hist && a.WriteMessage? ==> !Addressed(s, a.id, b)
  {
    if b in s.hist {
      assert s.accepted[b] + [] == s.accepted[b];
    }
    if a.WriteMessage? {
      KnownWrite(s, a.id, a.msg, b);
    } else if a.Remove? {
      RetainMembers(s.recs, a.id);
      forall i | 0 <= i < |Step(s, a).recs| ensures Step(s, a).recs[i].home in s.hist {
        assert Step(s, a).recs[i] in s.recs;
      }
    }
  }

  /** In every run what counts as accepted for a bridge is exactly what the callers told it. */
  lemma {:induction false} AcceptedIsTold(acts: seq<Action>, b: Bridge)
    ensures Known(Exec(Initial, acts))
    ensures var s := Exec(Initial, acts);
      if b in s.hist then b in s.accepted && s.accepted[b] == Told(acts, b) else Told(acts, b) == []
  {
    if acts != [] {
      var front, a := acts[..|acts| - 1], acts[|acts| - 1];
      assert acts == front + [a];
      ExecSnoc(Initial, front, a);
      AcceptedIsTold(front, b);
      KnownStep(Exec(Initial, front), a, b);
    }
  }

  /** In every run a bridge has a history exactly when a call registered it, one that was never registered
      can be, and the other calls can always be made. */
  lemma {:induction false} RegisteredInEveryRun(acts: seq<Action>, b: Bridge)
    ensures var s := Exec(Initial, acts);
      && (b in s.hist <==> exists k :: 0 <= k < |acts| && acts[k].Register? && acts[k].bridge == b)
      && (forall id :: Enabled(s, Register(id, b)) <==> b !in s.hist)
      && (forall id :: Enabled(s, Remove(id))) && (forall id, m :: Enabled(s, WriteMessage(id, m))) && Enabled(s, Dispose)
  {
    if acts != [] {
      var front, a := acts[..|acts| - 1], acts[|acts| - 1];
      assert acts == front + [a];
      ExecSnoc(Initial, front, a);
      RegisteredInEveryRun(front, b);
      assert b in Step(Exec(Initial, front), a).hist <==> b in Exec(Initial, front).hist || (a.Register? && a.bridge == b);
      if k :| 0 <= k < |front| && front[k].Register? && front[k].bridge == b {
        assert acts[k] == front[k];
      }
    }
  }

  ghost predicate NoFailingWrite(acts: seq<Action>) {
    forall k :: 0 <= k < |acts| && acts[k].WriteItem? ==> acts[k].ok
  }

  lemma {:induction false} NoFailureInRun(s: State, acts: seq<Action>, b: Bridge)
    requires NoFailingWrite(acts) && (b in s.hist ==> NoFailure(s.hist[b]))
    ensures b in Exec(s, acts).hist ==> NoFailure(Exec(s, acts).hist[b])
    decreases |acts|
  {
    if acts != [] {
      assert b in Step(s, acts[0]).hist ==> NoFailure(Step(s, acts[0]).hist[b]);
      NoFailureInRun(Step(s, acts[0]), acts[1..], b);
    }
  }

  /** In every run what is written on a bridge is an in-order subsequence of what the callers told it, and
      the beginning of it unless a write fails. */
  lemma WrittenAsToldInEveryRun(acts: seq<Action>, b: Bridge)
    requires Disciplined(Initial, acts) && b in Exec(Initial, acts).hist
    ensures var h := Exec(Initial, acts).hist[b];
      && Subsequence(Written(h), Told(acts, b))
      && (NoFailingWrite(acts) ==> Prefix(Written(h), Told(acts, b)))
  {
    WritesInOrderInEveryRun(acts, b);
    AcceptedIsTold(acts, b);
    if NoFailingWrite(acts) {
      NoFailureInRun(Initial, acts, b);
    }
  }

  /** Nothing told is lost: once the loops have finished and no write failed, everything the callers told
      the bridge of a live record was written, in order. */
  lemma EverythingToldIsWritten(acts: seq<Action>, i: nat)
    requires Disciplined(Initial, acts) && NoFailingWrite(acts)
    requires Settled(Exec(Initial, acts)) && i < |Exec(Initial, acts).recs|
    ensures var s := Exec(Initial, acts);
      var b := s.recs[i].home;
      b in s.hist && Written(s.hist[b]) == Told(acts, b)
  {
    var b := Exec(Initial, acts).recs[i].home;
    SettledIsDrained(acts, i);
    AcceptedIsTold(acts, b);
    NoFailureInRun(Initial, acts, b);
    WrittenIsSubsequence(Exec(Initial, acts).hist[b]);
  }

  // ---- Every way to the end -------------------------------------------------------------------

  /** Every action is a step of a loop or of `dispose` and enabled when it is taken. */
  predicate InternalRun(s: State, acts: seq<Action>)
    decreases |acts|
  {
    acts == [] || (acts[0].Internal() && Enabled(s, acts[0]) && InternalRun(Step(s, acts[0]), acts[1..]))
  }

  lemma {:induction false} InternalRunUsesUpWork(s: State, acts: seq<Action>)
    requires Inv(s) && InternalRun(s, acts)
    ensures Inv(Exec(s, acts)) && |acts| + Work(Exec(s, acts)) <= Work(s)
    decreases |acts|
  {
    if acts != [] {
      StepKeeps(s, acts[0]);
      InternalStepsUseUpWork(s, acts[0]);
      InternalRunUsesUpWork(Step(s, acts[0]), acts[1..]);
    }
  }

  /** However the loops and `dispose` are scheduled, they take at most `Work(s)` steps, and when none of
      them can take another one, all loops have returned and everything disposed of is closed. */
  lemma EveryInternalRunSettles(s: State, acts: seq<Action>)
    requires Inv(s) && InternalRun(s, acts)
    ensures |acts| <= Work(s)
    ensures (forall a: Action :: a.Internal() ==> !Enabled(Exec(s, acts), a)) <==> Settled(Exec(s, acts))
  {
    InternalRunUsesUpWork(s, acts);
    if !Settled(Exec(s, acts)) {
      var a := UnsettledCanStep(Exec(s, acts));
    }
  }

  // ---- What a reused id costs --------------------------------------------------------------------

  /** Nothing will ever close the bridge or write to it again. */
  ghost predicate Lost(s: State, b: Bridge) {
    !Owner(s, b) && b in s.hist && !ClosedOnce(s.hist[b])
  }

  /** A removed record's loop is still running with this id. */
  ghost predicate Haunted(s: State, id: Id) {
    Find(s.recs, id) == |s.recs| && exists t :: 0 <= t < |s.loops| && s.loops[t].Running? && s.loops[t].id == id
  }

  lemma FindLast(recs: seq<Rec>, r: Rec)
    requires Find(recs, r.id) == |recs|
    ensures Find(recs + [r], r.id) == |recs|
  {
    FindIs(recs + [r], r.id, |recs|);
  }

  /** The old loop, with its batch written, puts its own bridge into the new record. */
  lemma TurnLosesBridge(s: State, id: Id, b: Bridge, t: nat)
    requires Owned(s) && b !in s.hist && Find(s.recs, id) == |s.recs|
    requires t < |s.loops| && s.loops[t].Running? && s.loops[t].id == id && s.loops[t].items == []
    ensures Lost(Step(StepRegister(s, id, b), LockSection(t)), b)
  {
    var s0 := StepRegister(s, id, b);
    var s1 := Step(s0, LockSection(t));
    FindLast(s.recs, Rec(id, b, Some(b), [], 0));
    assert s1.recs == s0.recs[|s.recs| := Rec(id, b, Some(s.loops[t].bridge), [], 0)];
    forall i | 0 <= i < |s1.recs| ensures s1.recs[i].bridge != Some(b) {
      if i < |s.recs| {
        assert Idle(s, s.recs[i]) || Busy(s, s.recs[i]);
      }
    }
  }

  lemma FailBesideRegister(s: State, id: Id, b: Bridge, t: nat)
    requires Enabled(s, WriteItem(t, false)) && s.loops[t].bridge != b
    ensures Step(StepRegister(s, id, b), WriteItem(t, false)) == StepRegister(StepItem(s, t, false), id, b)
  {
    var l := s.loops[t];
    var h := s.hist[l.bridge] + [Failed(l.items[0])] + Discards(l.items[1..]);
    assert s.hist[b := []][l.bridge := h] == s.hist[l.bridge := h][b := []];
  }

  /** A loop with a batch gives it up at a failing write first. */
  lemma BusyLoopLosesBridge(s: State, id: Id, b: Bridge, t: nat)
    requires Owned(s) && b !in s.hist && Find(s.recs, id) == |s.recs|
    requires t < |s.loops| && s.loops[t].Running? && s.loops[t].id == id && s.loops[t].items != []
    ensures Lost(Exec(StepRegister(s, id, b), [WriteItem(t, false), LockSection(t)]), b)
  {
    var failed := StepItem(s, t, false);
    ItemOwned(s, t, false);
    FailBesideRegister(s, id, b, t);
    TurnLosesBridge(failed, id, b, t);
    ExecTwo(StepRegister(s, id, b), WriteItem(t, false), LockSection(t));
  }

  lemma HauntedIdLosesBridge(s: State, id: Id, b: Bridge) returns (acts: seq<Action>)
    requires Inv(s) && Enabled(s, Register(id, b)) && Haunted(s, id)
    ensures AllInternal(acts) && Lost(Exec(StepRegister(s, id, b), acts), b)
  {
    var t :| 0 <= t < |s.loops| && s.loops[t].Running? && s.loops[t].id == id;
    if s.loops[t].items == [] {
      acts := [LockSection(t)] + [];
      TurnLosesBridge(s, id, b, t);
      ExecCons(StepRegister(s, id, b), LockSection(t), []);
    } else {
      acts := [WriteItem(t, false), LockSection(t)];
      BusyLoopLosesBridge(s, id, b, t);
    }
  }

  /** The record keeps its bridge, behind another one of the same id. */
  ghost predicate Shadowed(s: State, n: nat, b: Bridge) {
    n < |s.recs| && s.recs[n].bridge == Some(b) && Find(s.recs, s.recs[n].id) < n
  }

  lemma FindSameIds(recs: seq<Rec>, recs': seq<Rec>, id: Id)
    requires |recs'| == |recs| && forall k :: 0 <= k < |recs| ==> recs'[k].id == recs[k].id
    ensures Find(recs', id) == Find(recs, id)
  {
    FindIs(recs', id, Find(recs, id));
  }

  lemma ShadowedStays(s: State, a: Action, n: nat, b: Bridge)
    requires Shadowed(s, n, b) && a.Internal()
    ensures Shadowed(Step(s, a), n, b)
  {
    FindSameIds(s.recs, Step(s, a).recs, s.recs[n].id);
    if a.LockSection? && Enabled(s, a) {
      assert Find(s.recs, s.loops[a.task].id) != n;
    }
  }

  /** Some live record was registered with the bridge. */
  ghost predicate Home(s: State, b: Bridge) {
    exists i :: 0 <= i < |s.recs| && s.recs[i].home == b
  }

  lemma HomeStays(s: State, a: Action, b: Bridge)
    requires Home(s, b) && a.Internal()
    ensures Home(Step(s, a), b)
  {
    var i :| 0 <= i < |s.recs| && s.recs[i].home == b;
    assert Step(s, a).recs[i].home == b;
  }

  lemma HomeIsOwned(s: State, b: Bridge)
    requires Inv(s) && Home(s, b)
    ensures Owner(s, b)
  {
    var i :| 0 <= i < |s.recs| && s.recs[i].home == b;
    assert Idle(s, s.recs[i]) || Busy(s, s.recs[i]);
  }

  lemma {:induction false} InternalStepsKeepIt(s: State, acts: seq<Action>, n: nat, b: Bridge)
    requires AllInternal(acts) && (Shadowed(s, n, b) || (Inv(s) && Home(s, b)))
    ensures Owner(Exec(s, acts), b)
    decreases |acts|
  {
    if acts == [] {
      if !Shadowed(s, n, b) {
        HomeIsOwned(s, b);
      }
    } else {
      if Shadowed(s, n, b) {
        ShadowedStays(s, acts[0], n, b);
      } else {
        StepKeeps(s, acts[0]);
        HomeStays(s, acts[0], b);
      }
      InternalStepsKeepIt(Step(s, acts[0]), acts[1..], n, b);
    }
  }

  lemma UnhauntedIdKeepsBridge(s: State, id: Id, b: Bridge, acts: seq<Action>)
    requires Inv(s) && Enabled(s, Register(id, b)) && !Haunted(s, id) && AllInternal(acts)
    ensures Owner(Exec(StepRegister(s, id, b), acts), b)
  {
    var s0, n := StepRegister(s, id, b), |s.recs|;
    if FreshId(s, id) {
      RegisterSafeIffFresh(s, id, b);
      assert s0.recs[n].home == b;
    } else {
      FindIs(s0.recs, id, Find(s.recs, id));
      assert Shadowed(s0, n, b);
    }
    InternalStepsKeepIt(s0, acts, n, b);
  }

  /** Registering an id can cost the new bridge by the loops' own doing, with no further call, exactly
      when a removed record's loop is still running with that id. */
  lemma RegisterLosesBridgeIff(s: State, id: Id, b: Bridge)
    requires Inv(s) && Enabled(s, Register(id, b))
    ensures (exists acts :: AllInternal(acts) && Lost(Exec(StepRegister(s, id, b), acts), b)) <==> Haunted(s, id)
  {
    if Haunted(s, id) {
      var acts := HauntedIdLosesBridge(s, id, b);
    } else {
      forall acts | AllInternal(acts) ensures Owner(Exec(StepRegister(s, id, b), acts), b) {
        UnhauntedIdKeepsBridge(s, id, b, acts);
      }
    }
  }

  // ---- The multiplexer object ----------------------------------------------------------------

  lemma {:induction false} RetainSnoc(recs: seq<Rec>, r: Rec, id: Id)
    ensures Retain(recs + [r], id) == Retain(recs, id) + (if r.id == id then [] else [r])
  {
    if recs == [] {
      assert [r][1..] == [];
    } else {
      var rest, last := Retain(recs[1..], id), if r.id == id then [] else [r];
      assert (recs + [r])[1..] == recs[1..] + [r] && (recs + [r])[0] == recs[0];
      RetainSnoc(recs[1..], r, id);
      assert [recs[0]] + (rest + last) == ([recs[0]] + rest) + last;
    }
  }

  lemma FindIs(recs: seq<Rec>, id: Id, i: nat)
    requires i <= |recs|
    requires forall k :: 0 <= k < i ==> recs[k].id != id
    requires i < |recs| ==> recs[i].id == id
    ensures Find(recs, id) == i
  {
  }

  predicate AllInternal(acts: seq<Action>) {
    forall k :: 0 <= k < |acts| ==> acts[k].Internal()
  }

  lemma TurnExtendsRun(start: State, acts: seq<Action>, s: State, a: Action)
    requires Inv(s) && Exec(start, acts) == s && AllInternal(acts) && Enabled(s, a) && a.Internal()
    ensures Exec(start, acts + [a]) == Step(s, a) && AllInternal(acts + [a])
    ensures Inv(Step(s, a)) && Work(Step(s, a)) < Work(s)
  {
    StepKeeps(s, a);
    InternalStepsUseUpWork(s, a);
    ExecSnoc(start, acts, a);
  }

  /** The shared object together with the tasks it has spawned. Each method is one atomic step. */
  class ServerMultiplexer {
    var inner: Option<seq<Rec>>
    var loops: seq<Loop>
    var closing: set<Bridge>
    ghost var hist: map<Bridge, seq<Event>>
    ghost var accepted: map<Bridge, seq<Msg>>

    ghost function View(): State
      reads this
    {
      State(if inner.Some? then inner.value else [], loops, closing, hist, accepted)
    }

    constructor ()
      ensures View() == Initial
    {
      inner, loops, closing, hist, accepted := Some([]), [], {}, map[], map[];
    }

    method Register(id: Id, bridge: Bridge)
      modifies this
      ensures View() == StepRegister(old(View()), id, bridge)
      ensures View().recs == old(View()).recs + [Rec(id, bridge, Some(bridge), [], 0)]
    {
      var rec := Rec(id, bridge, Some(bridge), [], 0);
      match inner {
        case Some(bridges) => inner := Some(bridges + [rec]);
        case None => inner := Some([rec]);
      }
      hist, accepted := hist[bridge := []], accepted[bridge := []];
    }

    method Remove(id: Id)
      modifies this
      ensures View() == StepRemove(old(View()), id)
      ensures forall r :: r in View().recs <==> r in old(View()).recs && r.id != id
      ensures Subsequence(View().recs, old(View()).recs)
    {
      if inner.Some? {
        var bridges := inner.value;
        var kept := [];
        for i := 0 to |bridges|
          invariant kept == Retain(bridges[..i], id)
          invariant unchanged(this)
        {
          RetainSnoc(bridges[..i], bridges[i], id);
          assert bridges[..i + 1] == bridges[..i] + [bridges[i]];
          if bridges[i].id != id {
            kept := kept + [bridges[i]];
          }
        }
        assert bridges[..|bridges|] == bridges;
        inner := Some(kept);
      } else {
        assert Retain(View().recs, id) == View().recs;
      }
      RetainMembers(old(View()).recs, id);
    }

    method WriteMessage(id: Id, message: Msg) returns (known: bool)
      modifies this
      ensures known <==> exists i :: 0 <= i < |old(View()).recs| && old(View()).recs[i].id == id
      ensures forall i: nat :: IsFirst(old(View()).recs, id, i) ==>
        var r := old(View()).recs[i];
        && |View().recs| == |old(View()).recs| && View().recs[i].home == r.home
        && View().recs[i].queue == r.queue + [message]
        && r.home in accepted && accepted[r.home] == (if r.home in old(accepted) then old(accepted)[r.home] else []) + [message]
      ensures !known ==> View() == old(View())
      ensures View() == StepWrite(old(View()), id, message)
    {
      if inner.None? {
        assert View().recs == [];
        return false;
      }
      var bridges := inner.value;
      assert View().recs == bridges;
      var i := 0;
      while i < |bridges| && bridges[i].id != id
        invariant i <= |bridges|
        invariant forall k :: 0 <= k < i ==> bridges[k].id != id
      {
        i := i + 1;
      }
      FindIs(bridges, id, i);
      if i == |bridges| {
        return false;
      }
      FirstsAreOne(bridges, id);
      assert bridges[i].id == id;
      var record := bridges[i].(queue := bridges[i].queue + [message]);
      if record.bridge.Some? {
        var bridge := record.bridge.value;
        record := record.(bridge := None, task := |loops|);
        loops := loops + [Running(id, bridge, [])];
      }
      inner := Some(bridges[i := record]);
      accepted := accepted[record.home := (if record.home in accepted then accepted[record.home] else []) + [message]];
      known := true;
    }

    method Dispose()
      modifies this
      ensures inner.None? && View() == StepDispose(old(View()))
    {
      match inner {
        case None =>
          assert Held([]) == {};
        case Some(bridges) =>
          inner := None;
          var taken: set<Bridge> := {};
          for i := 0 to |bridges|
            invariant taken == set k | 0 <= k < i && bridges[k].bridge.Some? :: bridges[k].bridge.value
          {
            if bridges[i].bridge.Some? {
              taken := taken + {bridges[i].bridge.value};
            }
          }
          closing := closing + taken;
      }
    }

    /** The part of a write loop that runs under the lock. */
    method LockSection(task: nat)
      requires Enabled(View(), Action.LockSection(task))
      modifies this
      ensures View() == StepLock(old(View()), task)
    {
      var id, bridge := loops[task].id, loops[task].bridge;
      if inner.None? {
        loops := loops[task := Closing(bridge)];
        return;
      }
      var bridges := inner.value;
      var i := 0;
      while i < |bridges| && bridges[i].id != id
        invariant i <= |bridges|
        invariant forall k :: 0 <= k < i ==> bridges[k].id != id
      {
        i := i + 1;
      }
      FindIs(bridges, id, i);
      if i == |bridges| {
        loops := loops[task := Closing(bridge)];
      } else if bridges[i].queue == [] {
        inner := Some(bridges[i := bridges[i].(bridge := Some(bridge))]);
        loops := loops[task := Returned];
      } else {
        var items := bridges[i].queue;
        inner := Some(bridges[i := bridges[i].(queue := [])]);
        loops := loops[task := Running(id, bridge, items)];
      }
    }

    /** One awaited write of a write loop's batch, with the outcome the bridge reports. */
    method WriteItem(task: nat, ok: bool)
      requires Enabled(View(), Action.WriteItem(task, ok))
      modifies this
      ensures View() == StepItem(old(View()), task, ok)
    {
      var l := loops[task];
      if ok {
        hist := hist[l.bridge := hist[l.bridge] + [Wrote(l.items[0])]];
        loops := loops[task := l.(items := l.items[1..])];
      } else {
        hist := hist[l.bridge := hist[l.bridge] + [Failed(l.items[0])] + Discards(l.items[1..])];
        loops := loops[task := l.(items := [])];
      }
    }

    method CloseLoop(task: nat)
      requires Enabled(View(), Action.CloseLoop(task))
      modifies this
      ensures View() == StepCloseLoop(old(View()), task)
    {
      var bridge := loops[task].bridge;
      hist := hist[bridge := hist[bridge] + [Closed]];
      loops := loops[task := Returned];
    }

    /** One turn of a write loop: its locked section, its next write, or closing its bridge.
        It extends a run of the interleaved model by one internal step. */
    method LoopTurn(task: nat, ok: bool, ghost start: State, ghost acts: seq<Action>) returns (ghost acts': seq<Action>)
      requires Inv(View()) && task < |loops| && !loops[task].Returned?
      requires View() == Exec(start, acts) && AllInternal(acts)
      modifies this
      ensures AllInternal(acts')
      ensures View() == Exec(start, acts') && Inv(View())
      ensures Work(View()) < Work(old(View()))
      ensures |loops| == old(|loops|)
    {
      ghost var a;
      if loops[task].Closing? {
        a := Action.CloseLoop(task);
        CloseLoop(task);
      } else if loops[task].items == [] {
        a := Action.LockSection(task);
        LockSection(task);
      } else {
        a := Action.WriteItem(task, ok);
        WriteItem(task, ok);
      }
      TurnExtendsRun(start, acts, old(View()), a);
      acts' := acts + [a];
    }

    /** A whole write loop with no other step in between: its steps are steps of the
        interleaved model, and it ends with the bridge returned or closed. */
    method WriteLoop(task: nat, outcomes: seq<bool>) returns (ghost acts: seq<Action>)
      requires Inv(View()) && task < |loops| && !loops[task].Returned?
      modifies this
      ensures View() == Exec(old(View()), acts) && Inv(View())
      ensures AllInternal(acts)
      ensures |loops| == old(|loops|) && loops[task].Returned?
    {
      acts := [];
      var turn := 0;
      while !loops[task].Returned?
        invariant View() == Exec(old(View()), acts) && Inv(View())
        invariant AllInternal(acts) && |loops| == old(|loops|)
        decreases Work(View())
      {
        acts := LoopTurn(task, turn < |outcomes| ==> outcomes[turn], old(View()), acts);
        turn := turn + 1;
      }
    }
  }
}
