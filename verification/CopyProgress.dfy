/** Copying a stream while reporting progress at a bounded rate. */
module CopyProgress {
  import opened Basics

  /** What one read gives and whether writing it succeeds. */
  datatype Turn = Data(bytes: seq<Byte>, written: bool) | ReadError

  datatype Outcome = Copied(bytes: nat) | Failed | Waiting

  function Chunks(turns: seq<Turn>): (chunks: seq<seq<Byte>>)
    ensures |chunks| == |turns| && forall k :: 0 <= k < |turns| && turns[k].Data? ==> chunks[k] == turns[k].bytes
  {
    seq(|turns|, k requires 0 <= k < |turns| => if turns[k].Data? then turns[k].bytes else [])
  }

  /** Reports start at zero, rise in steps larger than the granularity, and lag at most that far
      behind what was copied. */
  ghost predicate Paced(reports: seq<nat>, copied: nat, granularity: nat) {
    && reports != [] && reports[0] == 0
    && (forall k :: 1 <= k < |reports| ==> reports[k] - reports[k - 1] > granularity)
    && 0 <= copied - reports[|reports| - 1] <= granularity
  }

  /** Copies up to the first empty read: everything before it is written, in order and once. */
  method CopyAsyncProgress(turns: seq<Turn>, total: nat)
    returns (r: Outcome, out: seq<Byte>, reports: seq<nat>, done: nat)
    ensures done <= |turns| && forall k :: 0 <= k < done ==> turns[k].Data? && turns[k].bytes != [] && turns[k].written
    ensures out == Concat(Chunks(turns[..done]))
    ensures r.Waiting? <==> done == |turns|
    ensures r.Copied? <==> done < |turns| && turns[done].Data? && turns[done].bytes == []
    ensures r.Failed? <==>
      done < |turns| && (turns[done].ReadError? || (turns[done].bytes != [] && !turns[done].written))
    ensures r.Copied? ==> r.bytes == |out| && reports != [] && reports[|reports| - 1] == |out|
    ensures Paced(
      if r.Copied? then reports[..|reports| - 1] else reports, |out|, if total / 10 < 2097152 then total / 10 else 2097152)
  {
    var bytesSoFar, bytesLastReported := 0, 0;
    var granularity := Min(total / 10, 2 * 1024 * 1024);
    reports, out, done := [0], [], 0;
    assert Chunks(turns[..0]) == [];
    while done < |turns|
      invariant done <= |turns|
      invariant forall k :: 0 <= k < done ==> turns[k].Data? && turns[k].bytes != [] && turns[k].written
      invariant out == Concat(Chunks(turns[..done])) && bytesSoFar == |out|
      invariant Paced(reports, bytesSoFar, granularity) && bytesLastReported == reports[|reports| - 1]
    {
      match turns[done] {
        case ReadError => return Failed, out, reports, done;
        case Data(bytes, written) =>
          if bytes == [] {
            ghost var before := reports;
            reports := reports + [bytesSoFar];
            assert reports[..|reports| - 1] == before;
            return Copied(bytesSoFar), out, reports, done;
          }
          if !written {
            return Failed, out, reports, done;
          }
          assert Chunks(turns[..done + 1]) == Chunks(turns[..done]) + [bytes];
          ConcatSnoc(Chunks(turns[..done]), bytes);
          out := out + bytes;
          bytesSoFar := bytesSoFar + |bytes|;
          done := done + 1;
          if bytesSoFar - bytesLastReported > granularity {
            bytesLastReported := bytesSoFar;
            reports := reports + [bytesSoFar];
          }
      }
    }
    r := Waiting;
  }

  lemma {:induction false} PacedSpan(reports: seq<nat>, granularity: nat)
    requires reports != [] && forall k :: 1 <= k < |reports| ==> reports[k] - reports[k - 1] > granularity
    ensures reports[|reports| - 1] - reports[0] >= (|reports| - 1) * (granularity + 1)
  {
    if |reports| > 1 {
      PacedSpan(reports[..|reports| - 1], granularity);
    }
  }

  /** However the stream is cut into reads, the number of progress reports between the first and the
      final one is bounded by what was copied. */
  lemma FewReports(reports: seq<nat>, copied: nat, granularity: nat)
    requires Paced(reports, copied, granularity)
    ensures (|reports| - 1) * (granularity + 1) <= copied
  {
    PacedSpan(reports, granularity);
  }
}
