/** The endpoint registry: one file per identity, no lock, merged with a read-only legacy file.

    SHA-256 is a parameter of which only injectivity is used; a directory is a map from file names
    to what a reader finds under them. */
module Registry {
  import opened Basics
  import Decimal

  datatype ServerType = Editor | Standalone

  datatype Address = Socket(path: string) | Tcp(host: string, port: nat)

  datatype Identity = Identity(serverType: ServerType, pid: nat, instanceId: string)

  datatype Entry = Entry(
    serverType: ServerType, pid: nat, instanceId: string, protocolVersion: string, connectionToken: string,
    endpoint: Address, quality: Option<string>, tunnelName: Option<string>)
  {
    function Id(): Identity {
      Identity(serverType, pid, instanceId)
    }
  }

  // ---- File names ---------------------------------------------------------------------------

  const NUL: char := '\0'

  function WireName(t: ServerType): string {
    match t
    case Editor => "editor"
    case Standalone => "standalone"
  }

  lemma WireNamesDiffer(a: ServerType, b: ServerType)
    ensures NUL !in WireName(a)
    ensures WireName(a) == WireName(b) ==> a == b
  {
    assert |"editor"| != |"standalone"|;
  }

  function IdentityHashInput(id: Identity): string {
    WireName(id.serverType) + [NUL] + Decimal.Format(id.pid) + [NUL] + id.instanceId
  }

  lemma FirstNul(a: string, x: string)
    requires NUL !in a
    ensures (a + [NUL] + x)[|a|] == NUL && forall k :: 0 <= k < |a| ==> (a + [NUL] + x)[k] != NUL
  {
    forall k | 0 <= k < |a| ensures (a + [NUL] + x)[k] != NUL {
      assert (a + [NUL] + x)[k] == a[k];
    }
  }

  lemma SplitAtNul(a: string, x: string, b: string, y: string)
    requires NUL !in a && NUL !in b && a + [NUL] + x == b + [NUL] + y
    ensures a == b && x == y
  {
    var s := a + [NUL] + x;
    FirstNul(a, x);
    FirstNul(b, y);
    assert |a| == |b|;
    assert a == s[..|a|] && b == s[..|b|];
    assert x == s[|a| + 1..] && y == s[|b| + 1..];
  }

  /** The hash input determines the identity, even when the instance id contains a separator. */
  lemma IdentityHashInputInjective(a: Identity, b: Identity)
    ensures IdentityHashInput(a) == IdentityHashInput(b) ==> a == b
  {
    if IdentityHashInput(a) == IdentityHashInput(b) {
      var restA := Decimal.Format(a.pid) + [NUL] + a.instanceId;
      var restB := Decimal.Format(b.pid) + [NUL] + b.instanceId;
      assert IdentityHashInput(a) == WireName(a.serverType) + [NUL] + restA;
      assert IdentityHashInput(b) == WireName(b.serverType) + [NUL] + restB;
      SplitAtNul(WireName(a.serverType), restA, WireName(b.serverType), restB);
      SplitAtNul(Decimal.Format(a.pid), a.instanceId, Decimal.Format(b.pid), b.instanceId);
      Decimal.FormatInjective(a.pid, b.pid);
      WireNamesDiffer(a.serverType, b.serverType);
    }
  }

  /** The format of the hash input, which other programs share: the wire name of the type, the number of the
      process without a leading zero, and the instance id, with a NUL after each of the first two. */
  lemma IdentityHashInputFormat(id: Identity)
    ensures exists digits: string ::
      && IdentityHashInput(id) ==
        (if id.serverType.Editor? then "editor" else "standalone") + "\0" + digits + "\0" + id.instanceId
      && (forall k :: 0 <= k < |digits| ==> '0' <= digits[k] <= '9') && Decimal.Parse(digits) == id.pid
      && digits != "" && (digits[0] == '0' ==> digits == "0")
  {
    var digits := Decimal.Format(id.pid);
    Decimal.ParseFormat(id.pid);
    Decimal.NoLeadingZero(id.pid);
    assert [NUL] == "\0";
    assert IdentityHashInput(id) ==
      (if id.serverType.Editor? then "editor" else "standalone") + "\0" + digits + "\0" + id.instanceId;
  }

  /** The vector both implementations are held to, for any instance id. */
  lemma IdentityHashInputVector(instanceId: string)
    ensures IdentityHashInput(Identity(Editor, 1234, instanceId)) == "editor\01234\0" + instanceId
  {
    Decimal.FormatsTheVector();
    assert "editor\01234\0" == "editor" + [NUL] + "1234" + [NUL];
  }

  type Digest = string -> string

  ghost predicate Injective(sha: Digest) {
    forall x, y :: sha(x) == sha(y) ==> x == y
  }

  function EntryFileName(sha: Digest, id: Identity): string {
    sha(IdentityHashInput(id)) + ".json"
  }

  lemma EntryFileNameInjective(sha: Digest, a: Identity, b: Identity)
    requires Injective(sha) && EntryFileName(sha, a) == EntryFileName(sha, b)
    ensures a == b
  {
    var x, y := sha(IdentityHashInput(a)), sha(IdentityHashInput(b));
    assert x == (x + ".json")[..|x|] && y == (y + ".json")[..|y|];
    IdentityHashInputInjective(a, b);
  }

  // ---- Deduplication ------------------------------------------------------------------------

  /** The identities in order of first occurrence. */
  function FirstSeen(entries: seq<Entry>): seq<Identity> {
    if entries == [] then []
    else
      var ids, id := FirstSeen(entries[..|entries| - 1]), entries[|entries| - 1].Id();
      if id in ids then ids else ids + [id]
  }

  predicate Occurs(entries: seq<Entry>, id: Identity) {
    exists k :: 0 <= k < |entries| && entries[k].Id() == id
  }

  /** The last entry with this identity. */
  function LastWith(entries: seq<Entry>, id: Identity): (e: Entry)
    requires Occurs(entries, id)
    ensures e in entries && e.Id() == id
  {
    var last := entries[|entries| - 1];
    if last.Id() == id then last else LastWith(entries[..|entries| - 1], id)
  }

  lemma {:induction false} FirstSeenMembers(entries: seq<Entry>)
    ensures forall id :: id in FirstSeen(entries) <==> Occurs(entries, id)
    ensures forall i, j :: 0 <= i < j < |FirstSeen(entries)| ==> FirstSeen(entries)[i] != FirstSeen(entries)[j]
  {
    if entries != [] {
      var front, id := entries[..|entries| - 1], entries[|entries| - 1].Id();
      FirstSeenMembers(front);
      forall x ensures x in FirstSeen(entries) <==> Occurs(entries, x) {
        if Occurs(entries, x) {
          var k :| 0 <= k < |entries| && entries[k].Id() == x;
          assert k < |front| ==> front[k].Id() == x;
        }
        if Occurs(front, x) {
          var k :| 0 <= k < |front| && front[k].Id() == x;
          assert entries[k].Id() == x;
        }
        assert entries[|entries| - 1].Id() == id;
      }
    }
  }

  ghost predicate LastValues(entries: seq<Entry>, ids: seq<Identity>, result: seq<Entry>) {
    && |result| == |ids|
    && (forall k :: 0 <= k < |ids| ==> Occurs(entries, ids[k]) && result[k] == LastWith(entries, ids[k]))
  }

  /** Position of the first occurrence, value of the last. */
  ghost predicate IsDeduped(entries: seq<Entry>, result: seq<Entry>) {
    LastValues(entries, FirstSeen(entries), result)
  }

  lemma SameLast(front: seq<Entry>, entry: Entry, id: Identity)
    requires Occurs(front, id) && id != entry.Id()
    ensures Occurs(front + [entry], id) && LastWith(front + [entry], id) == LastWith(front, id)
  {
    var k :| 0 <= k < |front| && front[k].Id() == id;
    assert (front + [entry])[k].Id() == id;
    assert (front + [entry])[..|front|] == front;
  }

  lemma LastOfSnoc(front: seq<Entry>, entry: Entry)
    ensures Occurs(front + [entry], entry.Id()) && LastWith(front + [entry], entry.Id()) == entry
  {
    assert (front + [entry])[|front|] == entry;
  }

  lemma FirstSeenSnoc(front: seq<Entry>, entry: Entry)
    ensures FirstSeen(front + [entry]) ==
      if entry.Id() in FirstSeen(front) then FirstSeen(front) else FirstSeen(front) + [entry.Id()]
  {
    assert (front + [entry])[..|front|] == front;
  }

  /** One more entry replaces the value kept for its identity, or is added at the end. */
  lemma LastValuesSnoc(front: seq<Entry>, entry: Entry, ids: seq<Identity>, result: seq<Entry>, at: nat)
    requires LastValues(front, ids, result) && at <= |ids|
    requires forall k :: 0 <= k < |ids| ==> (ids[k] == entry.Id() <==> k == at)
    ensures if at < |ids| then LastValues(front + [entry], ids, result[at := entry])
      else LastValues(front + [entry], ids + [entry.Id()], result + [entry])
  {
    LastOfSnoc(front, entry);
    forall k | 0 <= k < |ids| && k != at
      ensures Occurs(front + [entry], ids[k]) && LastWith(front + [entry], ids[k]) == result[k]
    {
      SameLast(front, entry, ids[k]);
    }
  }

  /** The map gives the position of each identity. */
  ghost predicate Indexes(m: map<Identity, nat>, ids: seq<Identity>) {
    && (forall id :: id in m ==> m[id] < |ids| && ids[m[id]] == id)
    && (forall k :: 0 <= k < |ids| ==> ids[k] in m && m[ids[k]] == k)
  }

  lemma IndexOf(m: map<Identity, nat>, ids: seq<Identity>, id: Identity)
    requires Indexes(m, ids)
    ensures var at := if id in m then m[id] else |ids|;
      (id in m <==> id in ids) && forall k :: 0 <= k < |ids| ==> (ids[k] == id <==> k == at)
  {
  }

  lemma IndexesSnoc(m: map<Identity, nat>, ids: seq<Identity>, id: Identity)
    requires Indexes(m, ids) && id !in m
    ensures Indexes(m[id := |ids|], ids + [id])
  {
  }

  /** The entry is the last one of its identity in the list. */
  ghost predicate IsLast(s: seq<Entry>, e: Entry) {
    exists k :: 0 <= k < |s| && s[k] == e && forall j :: k < j < |s| ==> s[j].Id() != e.Id()
  }

  lemma IsLastSnoc(front: seq<Entry>, last: Entry, e: Entry)
    ensures IsLast(front + [last], e) <==> if last.Id() == e.Id() then last == e else IsLast(front, e)
  {
    var s := front + [last];
    assert s[|front|] == last;
    if last.Id() == e.Id() {
    } else if IsLast(front, e) {
      var k :| 0 <= k < |front| && front[k] == e && forall j :: k < j < |front| ==> front[j].Id() != e.Id();
      assert s[k] == e;
      forall j | k < j < |s| ensures s[j].Id() != e.Id() {
        assert j < |front| ==> s[j] == front[j];
      }
    } else if IsLast(s, e) {
      var k :| 0 <= k < |s| && s[k] == e && forall j :: k < j < |s| ==> s[j].Id() != e.Id();
      assert front[k] == e;
      forall j | k < j < |front| ensures front[j].Id() != e.Id() {
        assert s[j] == front[j];
      }
    }
  }

  lemma {:induction false} LastWithIsLast(entries: seq<Entry>, e: Entry)
    ensures Occurs(entries, e.Id()) && LastWith(entries, e.Id()) == e <==> IsLast(entries, e)
  {
    if entries != [] {
      var front, last := entries[..|entries| - 1], entries[|entries| - 1];
      assert entries == front + [last];
      LastWithIsLast(front, e);
      IsLastSnoc(front, last, e);
      if last.Id() == e.Id() {
        LastOfSnoc(front, last);
      } else if Occurs(front, e.Id()) {
        SameLast(front, last, e.Id());
      }
    }
  }

  /** The one identity occurs before the other does for the first time. */
  ghost predicate SeenBefore(entries: seq<Entry>, a: Identity, b: Identity) {
    exists p :: 0 <= p < |entries| && entries[p].Id() == a && forall q :: 0 <= q <= p ==> entries[q].Id() != b
  }

  lemma SeenBeforeSnoc(front: seq<Entry>, last: Entry, a: Identity, b: Identity)
    requires SeenBefore(front, a, b)
    ensures SeenBefore(front + [last], a, b)
  {
    var p :| 0 <= p < |front| && front[p].Id() == a && forall q :: 0 <= q <= p ==> front[q].Id() != b;
    assert (front + [last])[p].Id() == a;
    forall q | 0 <= q <= p ensures (front + [last])[q].Id() != b {
      assert (front + [last])[q] == front[q];
    }
  }

  lemma {:induction false} FirstSeenOrder(entries: seq<Entry>)
    ensures forall i, j :: 0 <= i < j < |FirstSeen(entries)| ==>
      SeenBefore(entries, FirstSeen(entries)[i], FirstSeen(entries)[j])
  {
    if entries != [] {
      var front, last := entries[..|entries| - 1], entries[|entries| - 1];
      assert entries == front + [last];
      FirstSeenOrder(front);
      FirstSeenMembers(front);
      FirstSeenSnoc(front, last);
      var before := FirstSeen(front);
      forall i, j | 0 <= i < j < |FirstSeen(entries)|
        ensures SeenBefore(entries, FirstSeen(entries)[i], FirstSeen(entries)[j])
      {
        if j < |before| {
          SeenBeforeSnoc(front, last, before[i], before[j]);
        } else {
          assert before[i] in before;
          var p :| 0 <= p < |front| && front[p].Id() == before[i];
          assert entries[p].Id() == before[i];
          forall q | 0 <= q <= p ensures entries[q].Id() != last.Id() {
            assert front[q] == entries[q];
          }
        }
      }
    }
  }

  /** What deduplication returns: the last value of each identity, in order of first occurrence. */
  lemma DedupedMeans(entries: seq<Entry>, result: seq<Entry>)
    requires IsDeduped(entries, result)
    ensures forall e :: e in result <==> IsLast(entries, e)
    ensures forall i, j :: 0 <= i < j < |result| ==> SeenBefore(entries, result[i].Id(), result[j].Id())
  {
    var ids := FirstSeen(entries);
    FirstSeenMembers(entries);
    FirstSeenOrder(entries);
    forall e ensures e in result <==> IsLast(entries, e) {
      LastWithIsLast(entries, e);
      if e in result {
        var k :| 0 <= k < |result| && result[k] == e;
        assert result[k] == LastWith(entries, ids[k]);
      }
      if IsLast(entries, e) {
        var k :| 0 <= k < |ids| && ids[k] == e.Id();
        assert result[k] == LastWith(entries, ids[k]);
      }
    }
  }

  method DedupeEntries(entries: seq<Entry>) returns (result: seq<Entry>)
    ensures forall e :: e in result <==> IsLast(entries, e)
    ensures forall i, j :: 0 <= i < j < |result| ==> SeenBefore(entries, result[i].Id(), result[j].Id())
    ensures IsDeduped(entries, result)
  {
    result := [];
    var indexByIdentity: map<Identity, nat> := map[];
    ghost var ids: seq<Identity> := [];
    for i := 0 to |entries|
      invariant ids == FirstSeen(entries[..i]) && LastValues(entries[..i], ids, result)
      invariant Indexes(indexByIdentity, ids)
    {
      var entry := entries[i];
      var id := entry.Id();
      ghost var front := entries[..i];
      assert entries[..i + 1] == front + [entry];
      FirstSeenSnoc(front, entry);
      ghost var at := if id in indexByIdentity then indexByIdentity[id] else |result|;
      IndexOf(indexByIdentity, ids, id);
      LastValuesSnoc(front, entry, ids, result, at);
      if id in indexByIdentity {
        result := result[indexByIdentity[id] := entry];
      } else {
        IndexesSnoc(indexByIdentity, ids, id);
        indexByIdentity := indexByIdentity[id := |result|];
        result := result + [entry];
        ids := ids + [id];
      }
    }
    assert entries[..|entries|] == entries;
    DedupedMeans(entries, result);
  }
}
