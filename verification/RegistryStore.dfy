/** Reading the registry directory, and what publishers, owners and pruning readers do to it. */
module RegistryStore {
  import opened Basics
  import opened Registry
  import opened RegistryOrder

  /** What a reader finds under a file name. `Ignored` covers malformed content, another schema
      version, and anything that is not a plain file; `Unreadable` is an I/O error. */
  datatype Body = Parsed(entry: Entry) | Ignored | Unreadable

  type Dir = map<string, Body>

  datatype IoError = IoError

  /** The legacy file as read: its valid entries, none if it is missing or malformed. */
  type Legacy = Result<seq<Entry>, IoError>

  predicate JsonName(name: string) {
    |name| >= 5 && name[|name| - 5..] == ".json"
  }

  lemma EntryFileNameIsJson(sha: Digest, id: Identity)
    ensures JsonName(EntryFileName(sha, id))
  {
  }

  /** The directory shows this identity: its own file holds a valid entry for it. */
  predicate FileShows(sha: Digest, dir: Dir, id: Identity) {
    var name := EntryFileName(sha, id);
    name in dir && dir[name].Parsed? && dir[name].entry.Id() == id
  }

  /** The file contributes an entry to a listing. */
  predicate Contributes(sha: Digest, dir: Dir, name: string)
    requires name in dir
  {
    JsonName(name) && dir[name].Parsed? && name == EntryFileName(sha, dir[name].entry.Id())
  }

  function Contributions(sha: Digest, dir: Dir, order: seq<string>): seq<Entry>
    requires forall k :: 0 <= k < |order| ==> order[k] in dir
  {
    if order == [] then []
    else
      (if Contributes(sha, dir, order[0]) then [dir[order[0]].entry] else []) + Contributions(sha, dir, order[1..])
  }

  predicate Fails(dir: Dir, order: seq<string>) {
    exists k :: 0 <= k < |order| && order[k] in dir && JsonName(order[k]) && dir[order[k]].Unreadable?
  }

  /** The directory enumeration visits every file once, in any order. */
  ghost predicate Enumerates(order: seq<string>, dir: Dir) {
    && (forall k :: 0 <= k < |order| ==> order[k] in dir)
    && (forall name :: name in dir ==> name in order)
    && (forall i, j :: 0 <= i < j < |order| ==> order[i] != order[j])
  }

  lemma {:induction false} ContributionsSnoc(sha: Digest, dir: Dir, order: seq<string>, name: string)
    requires name in dir && forall k :: 0 <= k < |order| ==> order[k] in dir
    ensures Contributions(sha, dir, order + [name]) ==
      Contributions(sha, dir, order) + (if Contributes(sha, dir, name) then [dir[name].entry] else [])
  {
    var last: seq<Entry> := if Contributes(sha, dir, name) then [dir[name].entry] else [];
    if order == [] {
      assert [] + [name] == [name] && Contributions(sha, dir, [name]) == last + Contributions(sha, dir, []);
    } else {
      var head: seq<Entry> := if Contributes(sha, dir, order[0]) then [dir[order[0]].entry] else [];
      var rest := Contributions(sha, dir, order[1..]);
      ContributionsSnoc(sha, dir, order[1..], name);
      assert (order + [name])[1..] == order[1..] + [name];
      assert Contributions(sha, dir, order + [name]) == head + (rest + last);
      assert head + (rest + last) == (head + rest) + last;
    }
  }

  method ReadEntryFiles(sha: Digest, dir: Dir, order: seq<string>) returns (r: Result<seq<Entry>, IoError>)
    requires forall k :: 0 <= k < |order| ==> order[k] in dir
    ensures r == if Fails(dir, order) then Err(IoError) else Ok(Contributions(sha, dir, order))
  {
    var out: seq<Entry> := [];
    for i := 0 to |order|
      invariant forall k :: 0 <= k < i ==> !(JsonName(order[k]) && dir[order[k]].Unreadable?)
      invariant out == Contributions(sha, dir, order[..i])
    {
      var name := order[i];
      assert order[..i + 1] == order[..i] + [name];
      ContributionsSnoc(sha, dir, order[..i], name);
      if !JsonName(name) {
        continue;
      }
      if dir[name].Unreadable? {
        return Err(IoError);
      }
      if dir[name].Ignored? {
        continue;
      }
      var entry := dir[name].entry;
      if name != EntryFileName(sha, entry.Id()) {
        continue;
      }
      out := out + [entry];
    }
    assert order[..|order|] == order;
    r := Ok(out);
  }

  function Prune(entries: seq<Entry>, alive: set<nat>): seq<Entry> {
    if entries == [] then []
    else (if entries[0].pid in alive then [entries[0]] else []) + Prune(entries[1..], alive)
  }

  /** The directory after a reader removed the files of the listed dead entries. */
  function WithoutDead(sha: Digest, dir: Dir, listed: seq<Entry>, alive: set<nat>): Dir {
    if listed == [] then dir
    else
      var rest := WithoutDead(sha, dir, listed[1..], alive);
      if listed[0].pid in alive then rest else rest - {EntryFileName(sha, listed[0].Id())}
  }

  /** The entries a read merges: live legacy ones first, then live entry files. */
  function Merged(sha: Digest, legacy: seq<Entry>, dir: Dir, order: seq<string>, alive: set<nat>): seq<Entry>
    requires forall k :: 0 <= k < |order| ==> order[k] in dir
  {
    Prune(legacy, alive) + Prune(Contributions(sha, dir, order), alive)
  }

  lemma {:induction false} PruneSnoc(entries: seq<Entry>, e: Entry, alive: set<nat>)
    ensures Prune(entries + [e], alive) == Prune(entries, alive) + (if e.pid in alive then [e] else [])
  {
    var last: seq<Entry> := if e.pid in alive then [e] else [];
    if entries == [] {
      assert [] + [e] == [e] && Prune([e], alive) == last + Prune([], alive);
    } else {
      var head: seq<Entry> := if entries[0].pid in alive then [entries[0]] else [];
      PruneSnoc(entries[1..], e, alive);
      assert (entries + [e])[1..] == entries[1..] + [e];
      assert Prune(entries + [e], alive) == head + (Prune(entries[1..], alive) + last);
      assert head + (Prune(entries[1..], alive) + last) == (head + Prune(entries[1..], alive)) + last;
    }
  }

  lemma {:induction false} WithoutDeadSnoc(sha: Digest, dir: Dir, listed: seq<Entry>, e: Entry, alive: set<nat>)
    ensures WithoutDead(sha, dir, listed + [e], alive) ==
      if e.pid in alive then WithoutDead(sha, dir, listed, alive)
      else WithoutDead(sha, dir, listed, alive) - {EntryFileName(sha, e.Id())}
  {
    if listed == [] {
      assert [e][1..] == [];
    } else {
      assert (listed + [e])[1..] == listed[1..] + [e];
      WithoutDeadSnoc(sha, dir, listed[1..], e, alive);
    }
  }

  /** The file of a listed entry whose process is dead. */
  ghost predicate DeadFile(sha: Digest, listed: seq<Entry>, alive: set<nat>, name: string) {
    exists k :: 0 <= k < |listed| && listed[k].pid !in alive && name == EntryFileName(sha, listed[k].Id())
  }

  /** Exactly the files of listed dead entries go, and the others keep their content. */
  lemma {:induction false} WithoutDeadFiles(sha: Digest, dir: Dir, listed: seq<Entry>, alive: set<nat>)
    ensures var left := WithoutDead(sha, dir, listed, alive);
      && (forall name :: name in left <==> name in dir && !DeadFile(sha, listed, alive, name))
      && (forall name :: name in left ==> left[name] == dir[name])
  {
    if listed != [] {
      var rest := WithoutDead(sha, dir, listed[1..], alive);
      WithoutDeadFiles(sha, dir, listed[1..], alive);
      forall name
        ensures DeadFile(sha, listed, alive, name) <==>
          (DeadFile(sha, listed[1..], alive, name) || (listed[0].pid !in alive && name == EntryFileName(sha, listed[0].Id())))
      {
        if k :| 0 <= k < |listed[1..]| && listed[1..][k].pid !in alive && name == EntryFileName(sha, listed[1..][k].Id()) {
          assert listed[k + 1] == listed[1..][k];
        }
        if k :| 0 < k < |listed| && listed[k].pid !in alive && name == EntryFileName(sha, listed[k].Id()) {
          assert listed[1..][k - 1] == listed[k];
        }
      }
    }
  }

  /** Keeps the live entry files and removes the files of the dead ones. */
  method PruneFiles(sha: Digest, files: seq<Entry>, dir: Dir, alive: set<nat>)
    returns (live: seq<Entry>, left: Dir)
    ensures live == Prune(files, alive) && left == WithoutDead(sha, dir, files, alive)
    ensures forall name :: name in left <==> name in dir && !DeadFile(sha, files, alive, name)
    ensures forall name :: name in left ==> left[name] == dir[name]
  {
    WithoutDeadFiles(sha, dir, files, alive);
    live, left := [], dir;
    assert files[..0] == [];
    for i := 0 to |files|
      invariant live == Prune(files[..i], alive)
      invariant left == WithoutDead(sha, dir, files[..i], alive)
    {
      var entry := files[i];
      assert files[..i + 1] == files[..i] + [entry];
      PruneSnoc(files[..i], entry, alive);
      WithoutDeadSnoc(sha, dir, files[..i], entry, alive);
      if entry.pid in alive {
        live := live + [entry];
      } else {
        left := left - {EntryFileName(sha, entry.Id())};
      }
    }
    assert files[..|files|] == files;
  }

  // ---- What a read returns ----------------------------------------------------------------------

  lemma {:induction false} PruneMembers(entries: seq<Entry>, alive: set<nat>)
    ensures forall e :: e in Prune(entries, alive) <==> e in entries && e.pid in alive
  {
    if entries != [] {
      PruneMembers(entries[1..], alive);
      assert entries == [entries[0]] + entries[1..];
    }
  }

  lemma {:induction false} ContributionMembers(sha: Digest, dir: Dir, order: seq<string>)
    requires forall k :: 0 <= k < |order| ==> order[k] in dir
    ensures forall e :: e in Contributions(sha, dir, order) <==>
      EntryFileName(sha, e.Id()) in order && dir[EntryFileName(sha, e.Id())] == Parsed(e)
  {
    if order != [] {
      ContributionMembers(sha, dir, order[1..]);
      forall e
        ensures e in Contributions(sha, dir, order) <==>
          EntryFileName(sha, e.Id()) in order && dir[EntryFileName(sha, e.Id())] == Parsed(e)
      {
        EntryFileNameIsJson(sha, e.Id());
        assert order == [order[0]] + order[1..];
      }
    }
  }

  lemma OccursInFront(s: seq<Entry>, id: Identity)
    requires s != [] && s[|s| - 1].Id() != id
    ensures Occurs(s[..|s| - 1], id) <==> Occurs(s, id)
  {
    var front := s[..|s| - 1];
    if k :| 0 <= k < |s| && s[k].Id() == id {
      assert front[k].Id() == id;
    }
    if k :| 0 <= k < |front| && front[k].Id() == id {
      assert s[k].Id() == id;
    }
  }

  lemma {:induction false} LastWithAppend(a: seq<Entry>, b: seq<Entry>, id: Identity)
    requires Occurs(a + b, id)
    ensures Occurs(b, id) ==> LastWith(a + b, id) == LastWith(b, id)
    ensures !Occurs(b, id) ==> Occurs(a, id) && LastWith(a + b, id) == LastWith(a, id)
  {
    if b == [] {
      assert a + b == a;
    } else {
      var front := b[..|b| - 1];
      var all := a + b;
      assert all[..|all| - 1] == a + front && all[|all| - 1] == b[|b| - 1];
      if b[|b| - 1].Id() != id {
        assert Occurs(a + front, id) by {
          var k :| 0 <= k < |all| && all[k].Id() == id;
          assert (a + front)[k] == all[k];
        }
        LastWithAppend(a, front, id);
        OccursInFront(b, id);
      }
    }
  }

  /** The live legacy entries speak for this identity. */
  ghost predicate LegacyShows(legacy: seq<Entry>, alive: set<nat>, e: Entry) {
    Occurs(Prune(legacy, alive), e.Id()) && e == LastWith(Prune(legacy, alive), e.Id())
  }

  /** What belongs in a listing: the entry in the identity's own file, or the last live legacy entry
      when the identity has no such file; and its process must be alive. */
  ghost predicate Visible(sha: Digest, legacy: seq<Entry>, dir: Dir, alive: set<nat>, e: Entry) {
    && e.pid in alive
    && (if FileShows(sha, dir, e.Id()) then dir[EntryFileName(sha, e.Id())].entry == e
        else LegacyShows(legacy, alive, e))
  }

  lemma {:induction false} LastLegacy(legacy: seq<Entry>, alive: set<nat>, e: Entry)
    ensures LegacyShows(legacy, alive, e) <==> e.pid in alive && IsLast(legacy, e)
  {
    if legacy != [] {
      var front, last := legacy[..|legacy| - 1], legacy[|legacy| - 1];
      var kept := Prune(front, alive);
      assert legacy == front + [last];
      LastLegacy(front, alive, e);
      PruneSnoc(front, last, alive);
      IsLastSnoc(front, last, e);
      assert last.Id() == e.Id() ==> last.pid == e.pid;
      if last.pid !in alive {
        assert Prune(legacy, alive) == kept;
      } else if last.Id() == e.Id() {
        LastOfSnoc(kept, last);
      } else {
        OccursInFront(kept + [last], e.Id());
        assert (kept + [last])[..|kept|] == kept;
      }
    }
  }

  lemma OccursInEither(a: seq<Entry>, b: seq<Entry>, id: Identity)
    ensures Occurs(a + b, id) <==> Occurs(a, id) || Occurs(b, id)
  {
    if k :| 0 <= k < |a| && a[k].Id() == id {
      assert (a + b)[k].Id() == id;
    }
    if k :| 0 <= k < |b| && b[k].Id() == id {
      assert (a + b)[|a| + k].Id() == id;
    }
    if k :| 0 <= k < |a + b| && (a + b)[k].Id() == id {
      assert k < |a| ==> a[k].Id() == id;
      assert k >= |a| ==> b[k - |a|].Id() == id;
    }
  }

  lemma FilesOccur(sha: Digest, dir: Dir, order: seq<string>, alive: set<nat>, id: Identity)
    requires Enumerates(order, dir)
    ensures Occurs(Prune(Contributions(sha, dir, order), alive), id) <==> FileShows(sha, dir, id) && id.pid in alive
  {
    var files := Prune(Contributions(sha, dir, order), alive);
    ContributionMembers(sha, dir, order);
    PruneMembers(Contributions(sha, dir, order), alive);
    if Occurs(files, id) {
      var k :| 0 <= k < |files| && files[k].Id() == id;
      assert files[k] in files;
    }
    if FileShows(sha, dir, id) && id.pid in alive {
      var x := dir[EntryFileName(sha, id)].entry;
      assert x in files;
      var k :| 0 <= k < |files| && files[k] == x;
      assert files[k].Id() == id;
    }
  }

  lemma MergedLast(sha: Digest, legacy: seq<Entry>, dir: Dir, order: seq<string>, alive: set<nat>, e: Entry)
    requires Enumerates(order, dir)
    ensures var all := Merged(sha, legacy, dir, order, alive);
      (Occurs(all, e.Id()) && e == LastWith(all, e.Id())) <==> Visible(sha, legacy, dir, alive, e)
  {
    var id := e.Id();
    var old_, files := Prune(legacy, alive), Prune(Contributions(sha, dir, order), alive);
    ContributionMembers(sha, dir, order);
    PruneMembers(legacy, alive);
    PruneMembers(Contributions(sha, dir, order), alive);
    FilesOccur(sha, dir, order, alive, id);
    OccursInEither(old_, files, id);
    if Occurs(files, id) {
      assert LastWith(files, id) in files;
    }
    if Occurs(old_ + files, id) {
      LastWithAppend(old_, files, id);
    }
  }

  /** A successful read returns exactly the visible entries, each identity once, sorted. */
  lemma ReadIsVisible(
    sha: Digest, legacy: seq<Entry>, dir: Dir, order: seq<string>, alive: set<nat>, d: seq<Entry>)
    requires Enumerates(order, dir) && IsDeduped(Merged(sha, legacy, dir, order, alive), d)
    ensures forall e :: e in Sort(d) <==> Visible(sha, legacy, dir, alive, e)
    ensures forall i, j :: 0 <= i < j < |Sort(d)| ==> Sort(d)[i].Id() != Sort(d)[j].Id()
    ensures Sorted(Sort(d))
  {
    var all := Merged(sha, legacy, dir, order, alive);
    var ids := FirstSeen(all);
    FirstSeenMembers(all);
    SortIsSorted(d);
    forall e ensures e in Sort(d) <==> Visible(sha, legacy, dir, alive, e) {
      MergedLast(sha, legacy, dir, order, alive, e);
      assert e in Sort(d) <==> e in multiset(d);
      if e in d {
        var k :| 0 <= k < |d| && d[k] == e;
        assert e == LastWith(all, ids[k]);
      }
      if Occurs(all, e.Id()) && e == LastWith(all, e.Id()) {
        var k :| 0 <= k < |ids| && ids[k] == e.Id();
        assert d[k] == e;
      }
    }
    DistinctIdsPermuted(d, Sort(d));
  }

  ghost predicate DistinctIds(s: seq<Entry>) {
    forall i, j :: 0 <= i < j < |s| ==> s[i].Id() != s[j].Id()
  }

  lemma {:induction false} DistinctIdsCount(s: seq<Entry>)
    requires DistinctIds(s)
    ensures forall e :: multiset(s)[e] == if e in s then 1 else 0
  {
    if s != [] {
      assert s == [s[0]] + s[1..];
      DistinctIdsCount(s[1..]);
    }
  }

  lemma RepeatedCount(t: seq<Entry>, i: nat, j: nat)
    requires i < j < |t|
    ensures t[i] == t[j] ==> multiset(t)[t[i]] >= 2
  {
    assert t == t[..i] + [t[i]] + t[i + 1..j] + [t[j]] + t[j + 1..];
  }

  lemma {:induction false} DistinctIdsPermuted(s: seq<Entry>, t: seq<Entry>)
    requires DistinctIds(s) && multiset(s) == multiset(t)
    ensures DistinctIds(t)
  {
    forall i, j | 0 <= i < j < |t| ensures t[i].Id() != t[j].Id() {
      assert t[i] in multiset(s) && t[j] in multiset(s);
      DistinctIdsCount(s);
      RepeatedCount(t, i, j);
    }
  }

  /** The listing does not depend on the directory enumeration order when no two visible entries
      share type and instance id. */
  lemma ReadOrderIrrelevant(
    sha: Digest, legacy: seq<Entry>, dir: Dir, alive: set<nat>,
    order1: seq<string>, d1: seq<Entry>, order2: seq<string>, d2: seq<Entry>)
    requires Enumerates(order1, dir) && IsDeduped(Merged(sha, legacy, dir, order1, alive), d1)
    requires Enumerates(order2, dir) && IsDeduped(Merged(sha, legacy, dir, order2, alive), d2)
    requires forall x, y :: Visible(sha, legacy, dir, alive, x) && Visible(sha, legacy, dir, alive, y) && SameKey(x, y) ==> x == y
    ensures Sort(d1) == Sort(d2)
  {
    ReadIsVisible(sha, legacy, dir, order1, alive, d1);
    ReadIsVisible(sha, legacy, dir, order2, alive, d2);
    DistinctIdsCount(Sort(d1));
    DistinctIdsCount(Sort(d2));
    assert multiset(Sort(d1)) == multiset(Sort(d2)) by {
      forall e ensures multiset(Sort(d1))[e] == multiset(Sort(d2))[e] {
        assert e in Sort(d1) <==> Visible(sha, legacy, dir, alive, e);
        assert e in Sort(d2) <==> Visible(sha, legacy, dir, alive, e);
      }
    }
    SortedUnique(Sort(d1), Sort(d2));
  }

  // ---- Reading -----------------------------------------------------------------------------------

  lemma DeadFileMeans(sha: Digest, dir: Dir, order: seq<string>, alive: set<nat>, name: string)
    requires Enumerates(order, dir) && name in dir
    ensures DeadFile(sha, Contributions(sha, dir, order), alive, name) <==>
      dir[name].Parsed? && name == EntryFileName(sha, dir[name].entry.Id()) && dir[name].entry.pid !in alive
  {
    var files := Contributions(sha, dir, order);
    ContributionMembers(sha, dir, order);
    if k :| 0 <= k < |files| && files[k].pid !in alive && name == EntryFileName(sha, files[k].Id()) {
      assert files[k] in files;
    }
    if dir[name].Parsed? && name == EntryFileName(sha, dir[name].entry.Id()) && dir[name].entry.pid !in alive {
      assert dir[name].entry in files;
    }
  }

  /** One read of the whole registry; `left` is the directory it leaves behind. It fails exactly when the
      legacy file or a file named as an entry cannot be read. Otherwise it lists each live entry that is in
      the file of its own identity, and the last live legacy entry of each identity without such a file,
      standalone ones before editors and by instance id within these. The entry files of dead processes
      are removed. */
  method ReadRegistry(sha: Digest, legacy: Legacy, dir: Dir, order: seq<string>, alive: set<nat>)
    returns (r: Result<seq<Entry>, IoError>, left: Dir)
    requires Enumerates(order, dir)
    ensures r.Err? <==>
      legacy.Err? || exists name :: name in dir && |name| >= 5 && name[|name| - 5..] == ".json" && dir[name].Unreadable?
    ensures r.Err? ==> left == dir
    ensures r.Ok? ==> forall e :: e in r.value <==>
      && e.pid in alive
      && var name := EntryFileName(sha, e.Id());
        if name in dir && dir[name].Parsed? && dir[name].entry.Id() == e.Id() then dir[name].entry == e
        else IsLast(legacy.value, e)
    ensures r.Ok? ==> forall i, j :: 0 <= i < j < |r.value| ==> r.value[i].Id() != r.value[j].Id()
    ensures r.Ok? ==> forall i, j :: 0 <= i < j < |r.value| ==>
      !(r.value[i].serverType.Editor? && r.value[j].serverType.Standalone?)
    ensures r.Ok? ==> forall i, j :: 0 <= i < j < |r.value| && r.value[i].serverType == r.value[j].serverType ==>
      var a, b := r.value[i].instanceId, r.value[j].instanceId;
      a <= b || exists k: nat :: k < |a| && k < |b| && a[..k] == b[..k] && a[k] < b[k]
    ensures r.Ok? ==>
      && (forall name :: name in left ==> name in dir && left[name] == dir[name])
      && (forall name :: name in dir ==> (name !in left <==>
            dir[name].Parsed? && name == EntryFileName(sha, dir[name].entry.Id()) && dir[name].entry.pid !in alive))
    ensures r.Ok? ==> exists d :: IsDeduped(Merged(sha, legacy.value, dir, order, alive), d) && r.value == Sort(d)
  {
    left := dir;
    if legacy.Err? {
      return Err(IoError), dir;
    }
    var files := ReadEntryFiles(sha, dir, order);
    assert Fails(dir, order) <==>
      exists name :: name in dir && |name| >= 5 && name[|name| - 5..] == ".json" && dir[name].Unreadable?;
    if files.Err? {
      return Err(IoError), dir;
    }
    var live;
    live, left := PruneFiles(sha, files.value, dir, alive);
    var d := DedupeEntries(Prune(legacy.value, alive) + live);
    r := Ok(Sort(d));
    ListingMeans(sha, legacy.value, dir, order, alive, d);
    forall name | name in dir
      ensures name !in left <==>
        dir[name].Parsed? && name == EntryFileName(sha, dir[name].entry.Id()) && dir[name].entry.pid !in alive
    {
      DeadFileMeans(sha, dir, order, alive, name);
    }
  }

  /** Members and order of a listing, in plain words. */
  lemma ListingMeans(
    sha: Digest, legacy: seq<Entry>, dir: Dir, order: seq<string>, alive: set<nat>, d: seq<Entry>)
    requires Enumerates(order, dir) && IsDeduped(Merged(sha, legacy, dir, order, alive), d)
    ensures forall e :: e in Sort(d) <==>
      && e.pid in alive
      && var name := EntryFileName(sha, e.Id());
        if name in dir && dir[name].Parsed? && dir[name].entry.Id() == e.Id() then dir[name].entry == e
        else IsLast(legacy, e)
    ensures forall i, j :: 0 <= i < j < |Sort(d)| ==> Sort(d)[i].Id() != Sort(d)[j].Id()
    ensures forall i, j :: 0 <= i < j < |Sort(d)| ==> !(Sort(d)[i].serverType.Editor? && Sort(d)[j].serverType.Standalone?)
    ensures forall i, j :: 0 <= i < j < |Sort(d)| && Sort(d)[i].serverType == Sort(d)[j].serverType ==>
      var a, b := Sort(d)[i].instanceId, Sort(d)[j].instanceId;
      a <= b || exists k: nat :: k < |a| && k < |b| && a[..k] == b[..k] && a[k] < b[k]
  {
    ReadIsVisible(sha, legacy, dir, order, alive, d);
    forall e {
      LastLegacy(legacy, alive, e);
    }
    forall i, j | 0 <= i < j < |Sort(d)|
      ensures !(Sort(d)[i].serverType.Editor? && Sort(d)[j].serverType.Standalone?)
      ensures Sort(d)[i].serverType == Sort(d)[j].serverType ==>
        var a, b := Sort(d)[i].instanceId, Sort(d)[j].instanceId;
        a <= b || exists k: nat :: k < |a| && k < |b| && a[..k] == b[..k] && a[k] < b[k]
    {
      KeyLeMeans(Sort(d)[i], Sort(d)[j]);
    }
  }

  // ---- Choosing an endpoint to reuse ------------------------------------------------------------

  /** A standalone TCP endpoint with the least instance id, if any is listed. */
  method SelectLiveStandaloneEndpoint(listing: seq<Entry>) returns (r: Option<Entry>)
    ensures r.None? <==> forall e :: e in listing ==> !(e.serverType.Standalone? && e.endpoint.Tcp?)
    ensures r.Some? ==> r.value in listing && r.value.serverType.Standalone? && r.value.endpoint.Tcp?
    ensures r.Some? ==> forall e :: e in listing && e.serverType.Standalone? && e.endpoint.Tcp? ==>
      var a, b := r.value.instanceId, e.instanceId;
      a <= b || exists k: nat :: k < |a| && k < |b| && a[..k] == b[..k] && a[k] < b[k]
  {
    var live: seq<Entry> := [];
    for i := 0 to |listing|
      invariant forall e :: e in live <==> e in listing[..i] && e.serverType.Standalone? && e.endpoint.Tcp?
    {
      assert forall e :: e in listing[..i + 1] <==> e in listing[..i] || e == listing[i];
      if listing[i].serverType.Standalone? && listing[i].endpoint.Tcp? {
        live := live + [listing[i]];
      }
    }
    assert listing[..|listing|] == listing;
    if live == [] {
      return None;
    }
    LeastFirst(live);
    if |live| > 1 {
      live := Sort(live);
    }
    r := Some(live[0]);
    forall e | e in listing && e.serverType.Standalone? && e.endpoint.Tcp?
      ensures var a, b := live[0].instanceId, e.instanceId;
        a <= b || exists k: nat :: k < |a| && k < |b| && a[..k] == b[..k] && a[k] < b[k]
    {
      KeyLeMeans(live[0], e);
    }
  }

  /** The first entry of the sorted list is one of the list and has the least key. */
  lemma LeastFirst(live: seq<Entry>)
    requires live != []
    ensures Sort(live) != [] && Sort(live)[0] in live
    ensures forall e :: e in live ==> KeyLe(Sort(live)[0], e) && (|live| == 1 ==> e == live[0])
    ensures KeyLe(live[0], live[0])
  {
    var sorted := Sort(live);
    SortIsSorted(live);
    assert |sorted| == |multiset(sorted)| == |multiset(live)| == |live|;
    assert sorted[0] in multiset(sorted);
    KeyTotal(live[0], live[0]);
    forall e | e in live ensures KeyLe(sorted[0], e) {
      assert e in multiset(live);
      FirstIsLeast(sorted, e);
    }
  }
}
