/** The set-once barrier over a watch channel, and the merge of two message sources. */
module Sync {
  import opened Basics

  // ---- Barrier ---------------------------------------------------------------------------------------

  /** A watch channel: its value, how often it was changed, and whether its senders are gone. */
  class Watch<T> {
    var value: Option<T>
    var version: nat
    var dropped: bool

    /** A value was set at most once, and never taken back. */
    ghost predicate Valid()
      reads this
    {
      version <= 1 && (value.Some? <==> version == 1)
    }

    constructor ()
      ensures Valid() && value.None? && !dropped
    {
      value, version, dropped := None, 0, false;
    }

    /** Opens the barrier: only the first value counts. */
    method Open(v: T)
      requires Valid()
      modifies this
      ensures Valid() && value == (if old(value).Some? then old(value) else Some(v))
      ensures dropped == old(dropped)
    {
      if value.None? {
        value, version := Some(v), version + 1;
      }
    }

    /** The last opener goes away. */
    method DropOpener()
      requires Valid()
      modifies this
      ensures Valid() && dropped && value == old(value)
    {
      dropped := true;
    }
  }

  datatype Waited<T> = Value(value: T) | Closed | StillWaiting

  /** One receiver; a clone starts from the same `seen` version. */
  class Barrier<T> {
    const watch: Watch<T>
    var seen: nat

    ghost predicate Valid()
      reads this, watch
    {
      watch.Valid() && seen <= watch.version
    }

    constructor (watch: Watch<T>)
      requires watch.Valid()
      ensures Valid() && this.watch == watch && seen == 0
    {
      this.watch, seen := watch, 0;
    }

    method Clone() returns (b: Barrier<T>)
      requires Valid()
      ensures fresh(b) && b.watch == watch && b.seen == seen && b.Valid()
    {
      b := new Barrier(watch);
      b.seen := seen;
    }

    method IsOpen() returns (open: bool)
      requires Valid()
      ensures open <==> watch.value.Some?
    {
      open := watch.value.Some?;
    }

    /** Waits as far as the channel lets it now. A receiver gets the value once: one that has seen it
        waits for a change that never comes, until the openers are gone. */
    method Wait() returns (r: Waited<T>)
      requires Valid()
      modifies this`seen
      ensures Valid() && seen == watch.version
      ensures old(seen) == 0 && watch.value.Some? ==> r == Value(watch.value.value)
      ensures old(seen) == 1 || watch.value.None? ==> r == if watch.dropped then Closed else StillWaiting
    {
      if seen == watch.version {
        return if watch.dropped then Closed else StillWaiting;
      }
      seen := watch.version;
      // a change always comes with a value, so there is no second turn of waiting
      r := Value(watch.value.value);
    }
  }

  // ---- Merged sources --------------------------------------------------------------------------------

  /** A receivable that merges two sources, each given by what it still has to deliver. */
  class MergedReceivable<T(!new)> {
    var left: Option<seq<T>>
    var right: Option<seq<T>>

    ghost function Left(): seq<T>
      reads this
    {
      if left.Some? then left.value else []
    }

    ghost function Right(): seq<T>
      reads this
    {
      if right.Some? then right.value else []
    }

    constructor (l: seq<T>, r: seq<T>)
      ensures Left() == l && Right() == r
    {
      left, right := Some(l), Some(r);
    }

    /** Takes the next message; `picks` says which source is ready first at each wait for both. */
    method RecvMsg(picks: nat -> bool) returns (r: Option<T>, ghost fromLeft: bool)
      modifies this
      ensures r.None? <==> old(Left()) == [] && old(Right()) == []
      ensures r.None? ==> Left() == [] && Right() == []
      ensures r.Some? ==>
        if fromLeft then old(Left()) == [r.value] + Left() && Right() == old(Right())
        else old(Right()) == [r.value] + Right() && Left() == old(Left())
    {
      var n: nat := 0;
      fromLeft := true;
      while true
        invariant Left() == old(Left()) && Right() == old(Right())
        decreases if left.Some? then 1 else 0, if right.Some? then 1 else 0
      {
        if left.Some? && right.Some? {
          if picks(n) {
            if left.value != [] {
              r, left := Some(left.value[0]), Some(left.value[1..]);
              return;
            }
            left := None;
          } else {
            if right.value != [] {
              r, right, fromLeft := Some(right.value[0]), Some(right.value[1..]), false;
              return;
            }
            right := None;
          }
          n := n + 1;
        } else if left.Some? {
          if left.value == [] {
            return None, true;
          }
          r, left := Some(left.value[0]), Some(left.value[1..]);
          return;
        } else if right.Some? {
          if right.value == [] {
            return None, false;
          }
          r, right, fromLeft := Some(right.value[0]), Some(right.value[1..]), false;
          return;
        } else {
          return None, true;
        }
      }
    }

    /** Receiving to the end delivers every message of both sources once, each source in order. */
    method Drain(picks: nat -> nat -> bool) returns (out: seq<T>)
      modifies this
      ensures Merges(out, old(Left()), old(Right()))
    {
      out := [];
      var n: nat := 0;
      ghost var l, r := Left(), Right();
      ghost var tookLeft, tookRight := [], [];
      while true
        invariant Merges(out, tookLeft, tookRight)
        invariant l == tookLeft + Left() && r == tookRight + Right()
        decreases |Left()| + |Right()|
      {
        var m;
        ghost var fromLeft;
        m, fromLeft := RecvMsg(picks(n));
        if m.None? {
          assert l == tookLeft && r == tookRight;
          return;
        }
        if fromLeft {
          MergeLeft(out, tookLeft, tookRight, m.value);
          TakeOne(tookLeft, m.value, Left());
          tookLeft := tookLeft + [m.value];
        } else {
          MergeRight(out, tookLeft, tookRight, m.value);
          TakeOne(tookRight, m.value, Right());
          tookRight := tookRight + [m.value];
        }
        out := out + [m.value];
        n := n + 1;
      }
    }
  }

  /** `out` interleaves `l` and `r`. */
  ghost predicate Merges<T(!new)>(out: seq<T>, l: seq<T>, r: seq<T>)
    decreases |out|
  {
    if out == [] then l == [] && r == []
    else
      var front, last := out[..|out| - 1], out[|out| - 1];
      || (l != [] && l[|l| - 1] == last && Merges(front, l[..|l| - 1], r))
      || (r != [] && r[|r| - 1] == last && Merges(front, l, r[..|r| - 1]))
  }

  lemma TakeOne<T>(taken: seq<T>, v: T, rest: seq<T>)
    ensures taken + ([v] + rest) == (taken + [v]) + rest
  {
  }

  lemma MergeLeft<T(!new)>(out: seq<T>, l: seq<T>, r: seq<T>, v: T)
    requires Merges(out, l, r)
    ensures Merges(out + [v], l + [v], r)
  {
    assert (out + [v])[..|out|] == out && (l + [v])[..|l|] == l;
  }

  lemma MergeRight<T(!new)>(out: seq<T>, l: seq<T>, r: seq<T>, v: T)
    requires Merges(out, l, r)
    ensures Merges(out + [v], l, r + [v])
  {
    assert (out + [v])[..|out|] == out && (r + [v])[..|r|] == r;
  }

  /** A merge has the messages of both sources, each source in its order. */
  lemma {:induction false} MergeConserves<T(!new)>(out: seq<T>, l: seq<T>, r: seq<T>)
    requires Merges(out, l, r)
    ensures multiset(out) == multiset(l) + multiset(r)
    ensures Subsequence(l, out) && Subsequence(r, out)
    decreases |out|
  {
    if out != [] {
      var front, last := out[..|out| - 1], out[|out| - 1];
      assert out == front + [last];
      if l != [] && l[|l| - 1] == last && Merges(front, l[..|l| - 1], r) {
        assert l == l[..|l| - 1] + [last];
        MergeConserves(front, l[..|l| - 1], r);
        SubsequenceSnoc(l[..|l| - 1], front, last);
        SubsequenceSnoc(r, front, last);
      } else {
        assert r == r[..|r| - 1] + [last];
        MergeConserves(front, l, r[..|r| - 1]);
        SubsequenceSnoc(r[..|r| - 1], front, last);
        SubsequenceSnoc(l, front, last);
      }
    }
  }
}
