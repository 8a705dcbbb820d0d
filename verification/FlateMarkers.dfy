/** A coder that repeats its flush marker, as DEFLATE does: what the driver asks of a coder can be met,
    and what it emits depends on the buffer. */
module FlateMarkers {
  import opened Basics
  import opened FlateStream

  /** A toy encoding: 1 before every byte, and 0 as the flush marker. */
  function Escape(m: seq<Byte>): seq<Byte> {
    if m == [] then [] else [1, m[0]] + Escape(m[1..])
  }

  /** Hands out what is pending as room allows, and adds the marker at every flushing call. */
  function EscapeStep(pending: seq<Byte>, input: seq<Byte>, room: nat, finish: bool): CoderResult<seq<Byte>> {
    var all := pending + Escape(input) + if finish then [] else [0];
    var k := Min(|all|, room);
    Coded(all[k..], |input|, all[..k], if finish && k < room then StreamEnd else StatusOk)
  }

  function Escaper(): Algorithm<seq<Byte>> {
    Algorithm(EscapeStep, (s: seq<Byte>, input: seq<Byte>, finish: bool) => |s| + |Escape(input)| + 1, 1,
              (s: seq<Byte>, input: seq<Byte>) => true)
  }

  /** The decoder may stand between a 1 and its byte, and holds what it has not handed out. */
  datatype Reader = Reader(half: bool, out: seq<Byte>)

  function Feed(t: Reader, z: seq<Byte>): Reader
    decreases |z|
  {
    if z == [] then t
    else if t.half then Feed(Reader(false, t.out + [z[0]]), z[1..])
    else Feed(Reader(z[0] == 1, t.out), z[1..])
  }

  function UnescapeStep(t: Reader, z: seq<Byte>, room: nat, finish: bool): CoderResult<Reader> {
    var fed := Feed(t, z);
    var k := Min(|fed.out|, room);
    Coded(Reader(fed.half, fed.out[k..]), |z|, fed.out[..k], if finish && k < room then StreamEnd else StatusOk)
  }

  function Unescaper(): Algorithm<Reader> {
    Algorithm(UnescapeStep, (t: Reader, z: seq<Byte>, finish: bool) => |t.out|, 0, (t: Reader, z: seq<Byte>) => true)
  }

  function Zeros(n: nat): (z: seq<Byte>)
    ensures |z| == n && forall k :: 0 <= k < n ==> z[k] == 0
  {
    seq(n, _ => 0)
  }

  /** However its output is cut up, the escaper emits the escaped input and one marker or more. */
  lemma {:induction false} EscaperEmits(s: seq<Byte>, m: seq<Byte>, rooms: seq<nat>, z: seq<Byte>, s': seq<Byte>) returns (n: nat)
    requires Calls(Escaper(), s, m, false, rooms, z, s', Flushed)
    ensures s' == [] && z == s + Escape(m) + Zeros(n)
    decreases |rooms|
  {
    var r := EscapeStep(s, m, rooms[0], false);
    EscapeStepSplits(s, m, rooms[0]);
    if Completes(r, m, rooms[0]) {
      n := 1;
      assert Zeros(1) == [0];
    } else {
      var rest := z[|r.emitted|..];
      n := EscaperEmits(r.next, m[r.consumed..], rooms[1..], rest, s');
      assert z == r.emitted + rest;
      OneMoreMarker(s + Escape(m), r.emitted, r.next, n);
      assert r.next + [] == r.next;
      n := n + 1;
    }
  }

  lemma EscapeStepSplits(s: seq<Byte>, m: seq<Byte>, room: nat)
    ensures var r := EscapeStep(s, m, room, false);
      && r.Coded? && r.consumed == |m| && m[r.consumed..] == []
      && r.emitted + r.next == s + Escape(m) + [0] && |r.emitted| <= room
      && (|r.emitted| < room ==> r.next == [] && r.emitted == s + Escape(m) + [0])
  {
  }

  lemma OneMoreMarker(plain: seq<Byte>, emitted: seq<Byte>, next: seq<Byte>, n: nat)
    requires emitted + next == plain + [0]
    ensures emitted + (next + Zeros(n)) == plain + Zeros(n + 1)
  {
    assert [0] + Zeros(n) == Zeros(n + 1);
    assert emitted + (next + Zeros(n)) == (emitted + next) + Zeros(n);
    assert (plain + [0]) + Zeros(n) == plain + ([0] + Zeros(n));
  }

  /** However its output is cut up, the reader emits what it was fed. */
  lemma {:induction false} ReaderEmits(t: Reader, z: seq<Byte>, rooms: seq<nat>, w: seq<Byte>, t': Reader)
    requires Calls(Unescaper(), t, z, false, rooms, w, t', Flushed)
    ensures w == Feed(t, z).out && t' == Reader(Feed(t, z).half, [])
    decreases |rooms|
  {
    var r := UnescapeStep(t, z, rooms[0], false);
    UnescapeStepSplits(t, z, rooms[0]);
    if !Completes(r, z, rooms[0]) {
      var rest := w[|r.emitted|..];
      ReaderEmits(r.next, z[r.consumed..], rooms[1..], rest, t');
      assert w == r.emitted + rest;
    }
  }

  lemma UnescapeStepSplits(t: Reader, z: seq<Byte>, room: nat)
    ensures var r := UnescapeStep(t, z, room, false);
      && r.Coded? && r.consumed == |z| && z[r.consumed..] == [] && |r.emitted| <= room
      && r.emitted + r.next.out == Feed(t, z).out && r.next.half == Feed(t, z).half
      && (|r.emitted| < room ==> r.next.out == [] && r.emitted == Feed(t, z).out)
  {
  }

  lemma {:induction false} FeedMarkers(out: seq<Byte>, n: nat)
    ensures Feed(Reader(false, out), Zeros(n)) == Reader(false, out)
  {
    if n > 0 {
      assert Zeros(n)[1..] == Zeros(n - 1);
      FeedMarkers(out, n - 1);
    }
  }

  lemma FeedEscapedByte(out: seq<Byte>, z: seq<Byte>, b: Byte, rest: seq<Byte>)
    requires z == [1, b] + rest
    ensures Feed(Reader(false, out), z) == Feed(Reader(false, out + [b]), rest)
  {
    assert z[1..] == [b] + rest && z[1..][1..] == rest;
  }

  lemma EscapedParts(m: seq<Byte>, tail: seq<Byte>)
    requires m != []
    ensures Escape(m) + tail == [1, m[0]] + (Escape(m[1..]) + tail)
  {
  }

  lemma {:induction false} FeedEscaped(out: seq<Byte>, m: seq<Byte>, n: nat)
    ensures Feed(Reader(false, out), Escape(m) + Zeros(n)) == Reader(false, out + m)
    decreases |m|
  {
    if m == [] {
      assert Escape(m) + Zeros(n) == Zeros(n) && out + m == out;
      FeedMarkers(out, n);
    } else {
      var rest := Escape(m[1..]) + Zeros(n);
      EscapedParts(m, Zeros(n));
      FeedEscapedByte(out, Escape(m) + Zeros(n), m[0], rest);
      FeedEscaped(out + [m[0]], m[1..], n);
      assert (out + [m[0]]) + m[1..] == out + m;
    }
  }

  lemma EscaperIsLawful()
    ensures Lawful(Escaper()) && Lawful(Unescaper()) && FinishEnds(Escaper())
  {
    forall s, input, room, finish ensures LawfulStep(Escaper(), s, input, room, finish) {
      assert input == [] ==> Escape(input) == [];
    }
    forall t, z, room, finish ensures LawfulStep(Unescaper(), t, z, room, finish) {
    }
  }

  /** All that is asked of a pair of coders can be met at once. */
  lemma EscaperIsUndone()
    ensures Undoes(Escaper(), Unescaper(), (s: seq<Byte>, t: Reader) => s == [] && t == Reader(false, []))
  {
    var rel := (s: seq<Byte>, t: Reader) => s == [] && t == Reader(false, []);
    forall s, t, m, z, s' | rel(s, t) && Reaches(Escaper(), s, m, false, z, s', Flushed)
      ensures Unescaper().valid(t, z) && Decodes(Unescaper(), t, z, m, s', rel)
    {
      var rooms :| Calls(Escaper(), s, m, false, rooms, z, s', Flushed);
      var n := EscaperEmits(s, m, rooms, z, s');
      assert z == Escape(m) + Zeros(n);
      FeedEscaped([], m, n);
      assert [] + m == m;
      forall w, t' | Reaches(Unescaper(), t, z, false, w, t', Flushed) ensures w == m && rel(s', t') {
        var cuts :| Calls(Unescaper(), t, z, false, cuts, w, t', Flushed);
        ReaderEmits(t, z, cuts, w, t');
      }
    }
  }

  lemma EscaperTurn(s: seq<Byte>, m: seq<Byte>, room: nat)
    requires room > 0
    ensures var all := s + Escape(m) + [0]; var r := EscapeStep(s, m, room, false);
      && (room > |all| ==> r == Coded([], |m|, all, StatusOk) && Completes(r, m, room))
      && (room == |all| ==> r == Coded([], |m|, all, StatusOk) && !Completes(r, m, room))
  {
    var all := s + Escape(m) + [0];
    assert all[..|all|] == all && all[|all|..] == [];
  }

  /** The emitted bytes do depend on the initial buffer: with one more byte than the output needs the
      driver gets the output once, with exactly what it needs it gets the marker again. */
  lemma OutputDependsOnTheBuffer(m: seq<Byte>)
    requires m != []
    ensures var z := Escape(m) + [0];
      && Calls(Escaper(), [], m, false, [|z| + 1], z, [], Flushed)
      && Calls(Escaper(), [], m, false, [|z|, |z|], z + [0], [], Flushed)
  {
    var z, none: seq<Byte> := Escape(m) + [0], [];
    assert none + Escape(m) + [0] == z && none + Escape(none) + [0] == [0];
    EscaperTurn([], m, |z| + 1);
    EscaperTurn([], m, |z|);
    EscaperTurn([], [], |z|);
    assert Calls(Escaper(), [], none, false, [|z|], [0], [], Flushed);
    var rooms, whole := [|z|, |z|], z + [0];
    assert rooms[1..] == [|z|] && whole[|z|..] == [0] && whole[..|z|] == z && m[|m|..] == none;
  }
}
