/** One read of the registry while owners and other readers go on: its files are taken in one by one
    and their processes checked one by one, and anything can happen in between. */
module RegistryReads {
  import opened Basics
  import opened Registry
  import opened RegistryOrder
  import opened RegistryStore
  import opened RegistryRuns

  /** The registry, and this reader's work: what it took in, how much of that it checked, and what of
      that it keeps. */
  datatype Reading = Reading(s: State, got: seq<Entry>, checked: nat, kept: seq<Entry>)

  /** `Visit` reads the file the enumeration names next, `Check` looks at the next process; deleting the
      file of a dead one is an action like any other. */
  datatype Turn = Other(action: Action) | Visit(name: string) | Check

  function Take(sha: Digest, r: Reading, t: Turn): Reading {
    match t
    case Other(a) => r.(s := Step(sha, r.s, a))
    case Visit(name) =>
      if !Enabled(sha, r.s, ReadFile(name)) then r
      else r.(s := Step(sha, r.s, ReadFile(name)), got := r.got + [r.s.dir[name].entry])
    case Check =>
      if r.checked >= |r.got| then r
      else
        var e := r.got[r.checked];
        r.(s := Step(sha, r.s, CheckProcess(e)), checked := r.checked + 1,
           kept := if e.pid in r.s.alive then r.kept + [e] else r.kept)
  }

  function Read(sha: Digest, r: Reading, turns: seq<Turn>): Reading {
    if turns == [] then r else Take(sha, Read(sha, r, turns[..|turns| - 1]), turns[|turns| - 1])
  }

  function Begin(s: State): Reading {
    Reading(s, [], 0, [])
  }

  lemma {:induction false} ReadKeeps(sha: Digest, s: State, turns: seq<Turn>)
    requires Injective(sha) && Inv(sha, s)
    ensures Inv(sha, Read(sha, Begin(s), turns).s)
  {
    if turns != [] {
      var front, last := turns[..|turns| - 1], turns[|turns| - 1];
      ReadKeeps(sha, s, front);
      var r := Read(sha, Begin(s), front);
      match last
      case Other(a) => StepKeeps(sha, r.s, a);
      case Visit(name) => StepKeeps(sha, r.s, ReadFile(name));
      case Check =>
        if r.checked < |r.got| {
          StepKeeps(sha, r.s, CheckProcess(r.got[r.checked]));
        }
    }
  }

  // ---- What is kept was there ----------------------------------------------------------------------

  /** Turn `i` of the read took this entry in: it was the content of its own file then, and if it had
      an owner then it was what that had last published. */
  ghost predicate ReadAt(sha: Digest, s: State, turns: seq<Turn>, e: Entry, i: nat) {
    i < |turns| && turns[i] == Visit(EntryFileName(sha, e.Id()))
    && var then_ := Read(sha, Begin(s), turns[..i]).s;
      && FileShows(sha, then_.dir, e.Id()) && then_.dir[EntryFileName(sha, e.Id())] == Parsed(e)
      && (e.Id() in then_.owned ==> then_.owned[e.Id()] == Some(e))
  }

  /** Turn `j` of the read found its process alive. */
  ghost predicate AliveAt(sha: Digest, s: State, turns: seq<Turn>, e: Entry, j: nat) {
    j < |turns| && turns[j].Check? && e.pid in Read(sha, Begin(s), turns[..j]).s.alive
  }

  ghost predicate WasRead(sha: Digest, s: State, turns: seq<Turn>, e: Entry) {
    exists i: nat :: ReadAt(sha, s, turns, e, i)
  }

  ghost predicate WasKept(sha: Digest, s: State, turns: seq<Turn>, e: Entry) {
    exists i: nat, j: nat :: ReadAt(sha, s, turns, e, i) && i < j && AliveAt(sha, s, turns, e, j)
  }

  lemma StillRead(sha: Digest, s: State, turns: seq<Turn>, e: Entry)
    requires turns != [] && WasRead(sha, s, turns[..|turns| - 1], e)
    ensures WasRead(sha, s, turns, e)
  {
    var i: nat :| ReadAt(sha, s, turns[..|turns| - 1], e, i);
    assert turns[..|turns| - 1][..i] == turns[..i];
    assert ReadAt(sha, s, turns, e, i);
  }

  lemma StillKept(sha: Digest, s: State, turns: seq<Turn>, e: Entry)
    requires turns != [] && WasKept(sha, s, turns[..|turns| - 1], e)
    ensures WasKept(sha, s, turns, e)
  {
    var front := turns[..|turns| - 1];
    var i: nat, j: nat :| ReadAt(sha, s, front, e, i) && i < j && AliveAt(sha, s, front, e, j);
    assert front[..i] == turns[..i] && front[..j] == turns[..j];
    assert ReadAt(sha, s, turns, e, i) && AliveAt(sha, s, turns, e, j);
  }

  lemma VisitReads(sha: Digest, s: State, turns: seq<Turn>, name: string)
    requires Injective(sha) && Inv(sha, s) && turns != [] && turns[|turns| - 1] == Visit(name)
    requires Enabled(sha, Read(sha, Begin(s), turns[..|turns| - 1]).s, ReadFile(name))
    ensures WasRead(sha, s, turns, Read(sha, Begin(s), turns[..|turns| - 1]).s.dir[name].entry)
  {
    var n := |turns| - 1;
    var then_ := Read(sha, Begin(s), turns[..n]).s;
    var e := then_.dir[name].entry;
    ReadKeeps(sha, s, turns[..n]);
    if e.Id() in then_.owned {
      assert Faithful(sha, then_, e.Id());
    }
    assert ReadAt(sha, s, turns, e, n);
  }

  lemma CheckKeeps(sha: Digest, s: State, turns: seq<Turn>, e: Entry)
    requires turns != [] && turns[|turns| - 1].Check? && WasRead(sha, s, turns[..|turns| - 1], e)
    requires e.pid in Read(sha, Begin(s), turns[..|turns| - 1]).s.alive
    ensures WasKept(sha, s, turns, e)
  {
    var n := |turns| - 1;
    var i: nat :| ReadAt(sha, s, turns[..n], e, i);
    assert turns[..n][..i] == turns[..i];
    assert ReadAt(sha, s, turns, e, i) && AliveAt(sha, s, turns, e, n);
  }

  /** Whatever happens meanwhile, everything a read keeps was in its own file when it was read, as its
      owner last published it if it had one then, and its process was alive when checked later. */
  lemma {:induction false} KeptWasThere(sha: Digest, s: State, turns: seq<Turn>)
    requires Injective(sha) && Inv(sha, s)
    ensures var r := Read(sha, Begin(s), turns);
      && r.checked <= |r.got|
      && (forall k :: 0 <= k < |r.got| ==> WasRead(sha, s, turns, r.got[k]))
      && (forall k :: 0 <= k < |r.kept| ==> WasKept(sha, s, turns, r.kept[k]))
  {
    if turns != [] {
      var front, last := turns[..|turns| - 1], turns[|turns| - 1];
      KeptWasThere(sha, s, front);
      var before, r := Read(sha, Begin(s), front), Read(sha, Begin(s), turns);
      forall k | 0 <= k < |r.got| ensures WasRead(sha, s, turns, r.got[k]) {
        if k < |before.got| {
          StillRead(sha, s, turns, before.got[k]);
        } else {
          VisitReads(sha, s, turns, last.name);
        }
      }
      forall k | 0 <= k < |r.kept| ensures WasKept(sha, s, turns, r.kept[k]) {
        if k < |before.kept| {
          StillKept(sha, s, turns, before.kept[k]);
        } else {
          CheckKeeps(sha, s, turns, r.kept[k]);
        }
      }
    }
  }

  // ---- What stays published is kept ------------------------------------------------------------------

  /** During the whole read the identity has an owner whose last published value is `e`. */
  ghost predicate StaysPublished(sha: Digest, s: State, turns: seq<Turn>, e: Entry) {
    forall n :: 0 <= n <= |turns| ==> PublishedAt(sha, s, turns, e, n)
  }

  ghost predicate PublishedAt(sha: Digest, s: State, turns: seq<Turn>, e: Entry, n: nat)
    requires n <= |turns|
  {
    var then_ := Read(sha, Begin(s), turns[..n]).s;
    e.Id() in then_.owned && then_.owned[e.Id()] == Some(e)
  }

  /** The identity is taken in at this value only, in any case once its file was visited, and kept once
      checked. */
  ghost predicate Consistently(r: Reading, e: Entry, visited: bool) {
    && r.checked <= |r.got|
    && (forall k :: 0 <= k < |r.got| && r.got[k].Id() == e.Id() ==> r.got[k] == e)
    && (forall k :: 0 <= k < |r.kept| && r.kept[k].Id() == e.Id() ==> r.kept[k] == e)
    && (visited ==> e in r.got)
    && (e in r.got[..r.checked] ==> e in r.kept)
  }

  ghost predicate Tracks(sha: Digest, s: State, turns: seq<Turn>, e: Entry) {
    Consistently(Read(sha, Begin(s), turns), e, Visit(EntryFileName(sha, e.Id())) in turns)
  }

  lemma VisitTracks(sha: Digest, r: Reading, e: Entry, visited: bool, name: string)
    requires Consistently(r, e, visited)
    requires EntryFileName(sha, e.Id()) in r.s.dir && r.s.dir[EntryFileName(sha, e.Id())] == Parsed(e)
    ensures Consistently(Take(sha, r, Visit(name)), e, visited || name == EntryFileName(sha, e.Id()))
  {
    var r' := Take(sha, r, Visit(name));
    EntryFileNameIsJson(sha, e.Id());
    assert r'.got[..r'.checked] == r.got[..r.checked];
    if name == EntryFileName(sha, e.Id()) {
      assert r'.got[|r.got|] == e;
    } else if visited {
      var k :| 0 <= k < |r.got| && r.got[k] == e;
      assert r'.got[k] == e;
    }
  }

  lemma CheckTracks(sha: Digest, r: Reading, e: Entry, visited: bool)
    requires Consistently(r, e, visited) && e.pid in r.s.alive
    ensures Consistently(Take(sha, r, Check), e, visited)
  {
    if r.checked < |r.got| {
      assert r.got[..r.checked + 1] == r.got[..r.checked] + [r.got[r.checked]];
    }
  }

  lemma TracksOn(sha: Digest, s: State, turns: seq<Turn>, e: Entry)
    requires Injective(sha) && Inv(sha, s) && turns != []
    requires Tracks(sha, s, turns[..|turns| - 1], e) && PublishedAt(sha, s, turns, e, |turns| - 1)
    ensures Tracks(sha, s, turns, e)
  {
    var front, last := turns[..|turns| - 1], turns[|turns| - 1];
    var before, visited := Read(sha, Begin(s), front), Visit(EntryFileName(sha, e.Id())) in front;
    ReadKeeps(sha, s, front);
    assert Faithful(sha, before.s, e.Id());
    assert turns == front + [last];
    match last
    case Other(_) =>
    case Visit(name) => VisitTracks(sha, before, e, visited, name);
    case Check => CheckTracks(sha, before, e, visited);
  }

  lemma {:induction false} TracksAll(sha: Digest, s: State, turns: seq<Turn>, e: Entry, n: nat)
    requires Injective(sha) && Inv(sha, s) && StaysPublished(sha, s, turns, e) && n <= |turns|
    ensures Tracks(sha, s, turns[..n], e)
    decreases n
  {
    if n > 0 {
      TracksAll(sha, s, turns, e, n - 1);
      assert turns[..n][..n - 1] == turns[..n - 1];
      assert PublishedAt(sha, s, turns, e, n - 1);
      TracksOn(sha, s, turns[..n], e);
    }
  }

  /** The listing of a read that was interleaved with anything: `live` are the legacy entries alive when
      they were looked at, `d` the deduped result before sorting. */
  ghost predicate Lists(r: Reading, live: seq<Entry>, d: seq<Entry>) {
    r.checked == |r.got| && IsDeduped(live + r.kept, d)
  }

  /** A value that stays published during a read that visits its file is listed, and nothing else is
      listed for its identity. */
  lemma PublishedIsListed(sha: Digest, s: State, turns: seq<Turn>, e: Entry, live: seq<Entry>, d: seq<Entry>)
    requires Injective(sha) && Inv(sha, s) && StaysPublished(sha, s, turns, e)
    requires Visit(EntryFileName(sha, e.Id())) in turns && Lists(Read(sha, Begin(s), turns), live, d)
    ensures forall x :: x in Sort(d) && x.Id() == e.Id() <==> x == e
  {
    var r := Read(sha, Begin(s), turns);
    TracksAll(sha, s, turns, e, |turns|);
    assert turns[..|turns|] == turns && r.got[..r.checked] == r.got;
    SortIsSorted(d);
    assert e in r.kept;
    KeptIsLast(live, r.kept, e);
    DedupedOnce(live + r.kept, d, e.Id());
    assert forall x :: x in Sort(d) <==> x in d by {
      assert multiset(Sort(d)) == multiset(d);
      assert forall x :: x in Sort(d) <==> x in multiset(Sort(d));
      assert forall x :: x in d <==> x in multiset(d);
    }
  }

  lemma KeptIsLast(live: seq<Entry>, kept: seq<Entry>, e: Entry)
    requires e in kept && forall k :: 0 <= k < |kept| && kept[k].Id() == e.Id() ==> kept[k] == e
    ensures Occurs(live + kept, e.Id()) && LastWith(live + kept, e.Id()) == e
  {
    var k :| 0 <= k < |kept| && kept[k] == e;
    assert (live + kept)[|live| + k].Id() == e.Id() && kept[k].Id() == e.Id();
    LastWithAppend(live, kept, e.Id());
    assert LastWith(kept, e.Id()) in kept;
  }

  /** A deduped list has each identity once, with its last value. */
  lemma DedupedOnce(all: seq<Entry>, d: seq<Entry>, id: Identity)
    requires IsDeduped(all, d) && Occurs(all, id)
    ensures forall x :: x in d && x.Id() == id <==> x == LastWith(all, id)
  {
    var ids, e := FirstSeen(all), LastWith(all, id);
    FirstSeenMembers(all);
    assert id in ids;
    var i :| 0 <= i < |ids| && ids[i] == id;
    assert d[i] == e;
    forall x | x in d && x.Id() == id ensures x == e {
      var j :| 0 <= j < |d| && d[j] == x;
      assert x == LastWith(all, ids[j]) && ids[j] == id;
    }
  }

  /** Whatever is listed was a live legacy entry, or a file entry that was there during the read. */
  lemma ListedWasThere(sha: Digest, s: State, turns: seq<Turn>, live: seq<Entry>, d: seq<Entry>, x: Entry)
    requires Injective(sha) && Inv(sha, s) && Lists(Read(sha, Begin(s), turns), live, d) && x in Sort(d)
    ensures x in live || WasKept(sha, s, turns, x)
  {
    var r := Read(sha, Begin(s), turns);
    SortIsSorted(d);
    assert x in multiset(d);
    var i :| 0 <= i < |d| && d[i] == x;
    assert x in live + r.kept;
    KeptWasThere(sha, s, turns);
  }

  // ---- A read on its own -------------------------------------------------------------------------------

  function Visits(order: seq<string>): (turns: seq<Turn>)
    ensures |turns| == |order| && forall k :: 0 <= k < |turns| ==> turns[k] == Visit(order[k])
  {
    seq(|order|, k requires 0 <= k < |order| => Visit(order[k]))
  }

  /** Each entry is checked, and its file deleted if its process is dead. */
  function Checks(listed: seq<Entry>, alive: set<nat>): seq<Turn> {
    if listed == [] then []
    else
      var e := listed[|listed| - 1];
      Checks(listed[..|listed| - 1], alive) + if e.pid in alive then [Check] else [Check, Other(Delete(e.Id()))]
  }

  lemma {:induction false} ReadAppend(sha: Digest, r: Reading, a: seq<Turn>, b: seq<Turn>)
    ensures Read(sha, r, a + b) == Read(sha, Read(sha, r, a), b)
  {
    if b == [] {
      assert a + b == a;
    } else {
      assert (a + b)[..|a + b| - 1] == a + b[..|b| - 1];
      ReadAppend(sha, r, a, b[..|b| - 1]);
    }
  }

  ghost predicate SameOwners(s: State, s': State) {
    s'.alive == s.alive && s'.owned == s.owned && s'.used == s.used
  }

  lemma VisitOne(sha: Digest, s: State, r: Reading, name: string)
    requires r.s.dir == s.dir && SameOwners(s, r.s) && name in s.dir
    requires forall k :: 0 <= k < |r.got| ==> r.got[k] in r.s.held
    ensures var r' := Take(sha, r, Visit(name));
      && r'.got == r.got + (if Contributes(sha, s.dir, name) then [s.dir[name].entry] else [])
      && r'.checked == r.checked && r'.kept == r.kept && r'.s.dir == s.dir && SameOwners(s, r'.s)
      && forall k :: 0 <= k < |r'.got| ==> r'.got[k] in r'.s.held
  {
    assert Enabled(sha, r.s, ReadFile(name)) == Contributes(sha, s.dir, name);
    if Contributes(sha, s.dir, name) {
      ReadOne(sha, r.s, name);
    } else {
      assert Take(sha, r, Visit(name)) == r && r.got + [] == r.got;
    }
  }

  lemma ReadOne(sha: Digest, s: State, name: string)
    requires Enabled(sha, s, ReadFile(name))
    ensures Step(sha, s, ReadFile(name)) == s.(held := s.held + {s.dir[name].entry})
  {
  }

  lemma {:induction false} VisitsRun(sha: Digest, s: State, order: seq<string>)
    requires forall k :: 0 <= k < |order| ==> order[k] in s.dir
    ensures var r := Read(sha, Begin(s), Visits(order));
      && r.got == Contributions(sha, s.dir, order) && r.checked == 0 && r.kept == []
      && r.s.dir == s.dir && SameOwners(s, r.s)
      && forall k :: 0 <= k < |r.got| ==> r.got[k] in r.s.held
  {
    if order != [] {
      var front, last := order[..|order| - 1], order[|order| - 1];
      VisitsRun(sha, s, front);
      ContributionsSnoc(sha, s.dir, front, last);
      assert order == front + [last] && Visits(order)[..|front|] == Visits(front);
      VisitOne(sha, s, Read(sha, Begin(s), Visits(front)), last);
    }
  }

  lemma ChecksOne(sha: Digest, r: Reading, e: Entry)
    requires r.checked < |r.got| && r.got[r.checked] == e && e in r.s.held
    ensures var turns := if e.pid in r.s.alive then [Check] else [Check, Other(Delete(e.Id()))];
      var r' := Read(sha, r, turns);
      && r'.got == r.got && r'.checked == r.checked + 1 && SameOwners(r.s, r'.s) && r'.s.held == r.s.held
      && r'.kept == r.kept + (if e.pid in r.s.alive then [e] else [])
      && r'.s.dir == if e.pid in r.s.alive then r.s.dir else r.s.dir - {EntryFileName(sha, e.Id())}
  {
    assert [Check][..0] == [] && [Check, Other(Delete(e.Id()))][..1] == [Check];
    assert Read(sha, r, [Check]) == Take(sha, r, Check);
  }

  /** From `r` on, the first `n` entries have been checked and the files of the dead ones deleted. */
  ghost predicate CheckedUpTo(sha: Digest, r: Reading, r': Reading, n: nat)
    requires n <= |r.got|
  {
    && r'.got == r.got && r'.checked == n && r'.kept == Prune(r.got[..n], r.s.alive)
    && r'.s.dir == WithoutDead(sha, r.s.dir, r.got[..n], r.s.alive)
    && SameOwners(r.s, r'.s) && r'.s.held == r.s.held
  }

  lemma CheckStep(sha: Digest, r: Reading, r': Reading, n: nat)
    requires n < |r.got| && CheckedUpTo(sha, r, r', n) && r.got[n] in r.s.held
    ensures var e := r.got[n];
      CheckedUpTo(sha, r, Read(sha, r', if e.pid in r.s.alive then [Check] else [Check, Other(Delete(e.Id()))]), n + 1)
  {
    var front, e := r.got[..n], r.got[n];
    assert r.got[..n + 1] == front + [e];
    PruneSnoc(front, e, r.s.alive);
    WithoutDeadSnoc(sha, r.s.dir, front, e, r.s.alive);
    ChecksOne(sha, r', e);
  }

  lemma {:induction false} ChecksRun(sha: Digest, r: Reading, n: nat)
    requires r.checked == 0 && r.kept == [] && n <= |r.got|
    requires forall k :: 0 <= k < |r.got| ==> r.got[k] in r.s.held
    ensures CheckedUpTo(sha, r, Read(sha, r, Checks(r.got[..n], r.s.alive)), n)
    decreases n
  {
    if n > 0 {
      var front, e := r.got[..n - 1], r.got[n - 1];
      var last := if e.pid in r.s.alive then [Check] else [Check, Other(Delete(e.Id()))];
      ChecksRun(sha, r, n - 1);
      assert r.got[..n][..n - 1] == front;
      ReadAppend(sha, r, Checks(front, r.s.alive), last);
      CheckStep(sha, r, Read(sha, r, Checks(front, r.s.alive)), n - 1);
    } else {
      assert r.got[..0] == [];
    }
  }

  /** A read with nothing in between is such a sequence of visits, checks and deletions: it keeps what a
      whole read lists and leaves the directory a whole read leaves. */
  lemma WholeReadIsARun(sha: Digest, s: State, order: seq<string>) returns (turns: seq<Turn>)
    requires forall k :: 0 <= k < |order| ==> order[k] in s.dir
    ensures var r := Read(sha, Begin(s), turns);
      var listed := Contributions(sha, s.dir, order);
      && r.got == listed && r.checked == |listed| && r.kept == Prune(listed, s.alive)
      && r.s.dir == WithoutDead(sha, s.dir, listed, s.alive) && SameOwners(s, r.s)
  {
    VisitsRun(sha, s, order);
    var r := Read(sha, Begin(s), Visits(order));
    ChecksRun(sha, r, |r.got|);
    assert r.got[..|r.got|] == r.got;
    turns := Visits(order) + Checks(r.got, s.alive);
    ReadAppend(sha, Begin(s), Visits(order), Checks(r.got, s.alive));
  }

  /** In every run, from any leftovers, a read among other steps lists what stays published and nothing
      that was not there. */
  lemma ReadInEveryRun(
    sha: Digest, s0: State, acts: seq<Action>, turns: seq<Turn>, live: seq<Entry>, d: seq<Entry>)
    requires Injective(sha) && Start0(sha, s0)
    requires var s := Exec(sha, s0, acts); Lists(Read(sha, Begin(s), turns), live, d)
    ensures var s := Exec(sha, s0, acts);
      && (forall x :: x in Sort(d) ==> x in live || WasKept(sha, s, turns, x))
      && (forall e :: StaysPublished(sha, s, turns, e) && Visit(EntryFileName(sha, e.Id())) in turns ==>
            e in Sort(d) && forall x :: x in Sort(d) && x.Id() == e.Id() ==> x == e)
  {
    var s := Exec(sha, s0, acts);
    RunKeeps(sha, s0, acts);
    forall x | x in Sort(d) ensures x in live || WasKept(sha, s, turns, x) {
      ListedWasThere(sha, s, turns, live, d, x);
    }
    forall e | StaysPublished(sha, s, turns, e) && Visit(EntryFileName(sha, e.Id())) in turns
      ensures e in Sort(d) && forall x :: x in Sort(d) && x.Id() == e.Id() ==> x == e
    {
      PublishedIsListed(sha, s, turns, e, live, d);
    }
  }
}
