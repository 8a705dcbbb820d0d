/** Owners and pruning readers acting on the registry directory at the same time, with no lock.

    A read is split where another process can act: taking in one entry file, asking whether its process
    is alive, and removing the file of a dead one. Process ids are reused, instance ids are not. */
module RegistryRuns {
  import opened Basics
  import opened Registry
  import opened RegistryStore
  import opened RegistryOrder

  /** `owned` maps each identity of a live process to what it last published and did not remove since.
      `used` holds every identity there ever was. Any number of readers are at work: `held` holds what
      some reader took in and may yet check, `condemned` what some reader found dead and may yet delete. */
  datatype State = State(
    dir: Dir,
    alive: set<nat>,
    owned: map<Identity, Option<Entry>>,
    used: set<Identity>,
    held: set<Entry>,
    condemned: set<Identity>)

  datatype Action =
    | Start(pid: nat)
    | Claim(id: Identity)
    | Die(pid: nat)
    | Publish(entry: Entry)
    | Remove(id: Identity)
    | Stage(name: string, body: Body)
    | Unstage(name: string)
    | ReadFile(name: string)
    | CheckProcess(entry: Entry)
    | Delete(id: Identity)

  predicate Enabled(sha: Digest, s: State, a: Action) {
    match a
    case Start(_) => true
    case Claim(id) => id.pid in s.alive && id !in s.used
    case Die(_) => true
    case Publish(e) => e.Id() in s.owned
    case Remove(id) => id in s.owned
    case Stage(name, _) => !JsonName(name)
    case Unstage(name) => !JsonName(name)
    case ReadFile(name) => name in s.dir && Contributes(sha, s.dir, name)
    case CheckProcess(e) => e in s.held
    case Delete(id) => id in s.condemned
  }

  /** The identities of a process that died have no owner any more. */
  function Orphaned(owned: map<Identity, Option<Entry>>, pid: nat): map<Identity, Option<Entry>> {
    map id | id in owned && id.pid != pid :: owned[id]
  }

  function Step(sha: Digest, s: State, a: Action): State {
    if !Enabled(sha, s, a) then s else
    match a
    case Start(pid) => s.(alive := s.alive + {pid})
    case Claim(id) => s.(owned := s.owned[id := None], used := s.used + {id})
    case Die(pid) => s.(alive := s.alive - {pid}, owned := Orphaned(s.owned, pid))
    case Publish(e) =>
      s.(dir := s.dir[EntryFileName(sha, e.Id()) := Parsed(e)], owned := s.owned[e.Id() := Some(e)])
    case Remove(id) => s.(dir := s.dir - {EntryFileName(sha, id)}, owned := s.owned[id := None])
    case Stage(name, body) => s.(dir := s.dir[name := body])
    case Unstage(name) => s.(dir := s.dir - {name})
    case ReadFile(name) => s.(held := s.held + {s.dir[name].entry})
    case CheckProcess(e) =>
      if e.pid in s.alive then s else s.(condemned := s.condemned + {e.Id()})
    case Delete(id) => s.(dir := s.dir - {EntryFileName(sha, id)})
  }

  function Exec(sha: Digest, s: State, acts: seq<Action>): State
    decreases |acts|
  {
    if acts == [] then s else Exec(sha, Step(sha, s, acts[0]), acts[1..])
  }

  // ---- The invariant -------------------------------------------------------------------------------

  /** The directory shows exactly what the owner last published. */
  ghost predicate Faithful(sha: Digest, s: State, id: Identity)
    requires id in s.owned
  {
    match s.owned[id]
    case None => !FileShows(sha, s.dir, id)
    case Some(e) => e.Id() == id && EntryFileName(sha, id) in s.dir && s.dir[EntryFileName(sha, id)] == Parsed(e)
  }

  ghost predicate Inv(sha: Digest, s: State) {
    && (forall id :: id in s.owned ==> id in s.used && id.pid in s.alive)
    && (forall id :: id in s.owned ==> Faithful(sha, s, id))
    && (forall id :: FileShows(sha, s.dir, id) ==> id in s.used)
    && (forall e :: e in s.held ==> e.Id() in s.used)
    && (forall id :: id in s.condemned ==> id in s.used && id !in s.owned)
  }

  /** A directory left over from earlier processes, before any owner or reader starts. */
  ghost predicate Start0(sha: Digest, s: State) {
    && s.owned == map[] && s.held == {} && s.condemned == {}
    && (forall id :: FileShows(sha, s.dir, id) ==> id in s.used)
  }

  lemma NamesDiffer(sha: Digest, a: Identity, b: Identity)
    requires Injective(sha)
    ensures EntryFileName(sha, a) == EntryFileName(sha, b) <==> a == b
  {
    if EntryFileName(sha, a) == EntryFileName(sha, b) {
      EntryFileNameInjective(sha, a, b);
    }
  }

  /** What a step may do to the file of an identity it does not name. */
  lemma FileUntouched(sha: Digest, s: State, a: Action, id: Identity)
    requires Injective(sha)
    requires a.Publish? ==> a.entry.Id() != id
    requires a.Remove? || a.Delete? ==> a.id != id
    ensures var name := EntryFileName(sha, id); var s' := Step(sha, s, a);
      (name in s.dir <==> name in s'.dir) && (name in s.dir ==> s'.dir[name] == s.dir[name])
  {
    EntryFileNameIsJson(sha, id);
    match a
    case Publish(e) => NamesDiffer(sha, e.Id(), id);
    case Remove(other) => NamesDiffer(sha, other, id);
    case Delete(other) => NamesDiffer(sha, other, id);
    case _ =>
  }

  lemma FilesStayKnown(sha: Digest, s: State, a: Action, id: Identity)
    requires Injective(sha) && Inv(sha, s) && FileShows(sha, Step(sha, s, a).dir, id)
    ensures id in Step(sha, s, a).used
  {
    if a.Publish? && a.entry.Id() == id {
    } else if (a.Remove? || a.Delete?) && a.id == id {
    } else {
      FileUntouched(sha, s, a, id);
      assert FileShows(sha, s.dir, id);
    }
  }

  lemma OwnersStayFaithful(sha: Digest, s: State, a: Action, id: Identity)
    requires Injective(sha) && Inv(sha, s) && id in Step(sha, s, a).owned
    ensures Faithful(sha, Step(sha, s, a), id)
  {
    if a.Claim? && a.id == id && Enabled(sha, s, a) {
      assert !FileShows(sha, s.dir, id);
    } else {
      assert id in s.owned && Faithful(sha, s, id);
      if a.Publish? && a.entry.Id() == id {
      } else if a.Remove? && a.id == id {
      } else if a.Delete? && a.id == id {
        assert id !in s.condemned;
      } else {
        FileUntouched(sha, s, a, id);
      }
    }
  }

  /** Every step of every process keeps the directory faithful to the live owners. */
  lemma StepKeeps(sha: Digest, s: State, a: Action)
    requires Injective(sha) && Inv(sha, s)
    ensures Inv(sha, Step(sha, s, a))
  {
    var s' := Step(sha, s, a);
    forall id | id in s'.owned ensures Faithful(sha, s', id) {
      OwnersStayFaithful(sha, s, a, id);
    }
    forall id | FileShows(sha, s'.dir, id) ensures id in s'.used {
      FilesStayKnown(sha, s, a, id);
    }
    if a.ReadFile? && Enabled(sha, s, a) {
      assert FileShows(sha, s.dir, s.dir[a.name].entry.Id());
    }
  }

  lemma {:induction false} RunKeeps(sha: Digest, s: State, acts: seq<Action>)
    requires Injective(sha) && Inv(sha, s)
    ensures Inv(sha, Exec(sha, s, acts))
    decreases |acts|
  {
    if acts != [] {
      StepKeeps(sha, s, acts[0]);
      RunKeeps(sha, Step(sha, s, acts[0]), acts[1..]);
    }
  }

  // ---- What readers see ----------------------------------------------------------------------------

  /** No step but its owner's own publish, remove or death changes what an owned identity shows. */
  lemma OthersLeaveItAlone(sha: Digest, s: State, a: Action, id: Identity)
    requires Injective(sha) && Inv(sha, s) && id in s.owned
    requires !(a.Publish? && a.entry.Id() == id) && !(a.Remove? && a.id == id) && !(a.Die? && a.pid == id.pid)
    ensures var name := EntryFileName(sha, id); var s' := Step(sha, s, a);
      && id in s'.owned && s'.owned[id] == s.owned[id]
      && (name in s.dir <==> name in s'.dir) && (name in s.dir ==> s'.dir[name] == s.dir[name])
  {
    if a.Delete? && a.id == id {
      assert id !in s.condemned;
    } else {
      FileUntouched(sha, s, a, id);
    }
  }

  /** What the registry is for: a live owner's last published value, or a live legacy entry for an
      identity that has no entry file. */
  ghost predicate Current(sha: Digest, s: State, legacy: seq<Entry>, e: Entry) {
    && e.pid in s.alive
    && if e.Id() in s.owned && s.owned[e.Id()].Some? then s.owned[e.Id()].value == e
       else !FileShows(sha, s.dir, e.Id()) && LegacyShows(legacy, s.alive, e)
  }

  /** The file of an identity whose process died, now that another process runs under its pid. */
  ghost predicate Leftover(sha: Digest, s: State, e: Entry) {
    && e.Id() !in s.owned && e.Id() in s.used && e.pid in s.alive
    && FileShows(sha, s.dir, e.Id()) && s.dir[EntryFileName(sha, e.Id())].entry == e
  }

  lemma VisibleIsCurrentOrLeftover(sha: Digest, s: State, legacy: seq<Entry>, e: Entry)
    requires Inv(sha, s)
    ensures Visible(sha, legacy, s.dir, s.alive, e) <==> Current(sha, s, legacy, e) || Leftover(sha, s, e)
  {
    if e.Id() in s.owned {
      assert Faithful(sha, s, e.Id());
    } else if FileShows(sha, s.dir, e.Id()) {
      assert e.Id() in s.used;
    }
  }

  /** After every run, a read lists exactly the current entries, and a leftover of a dead process only
      when its pid runs again. */
  lemma ListingInEveryRun(
    sha: Digest, s0: State, acts: seq<Action>, legacy: seq<Entry>, order: seq<string>, d: seq<Entry>)
    requires Injective(sha) && Start0(sha, s0)
    requires var s := Exec(sha, s0, acts);
      Enumerates(order, s.dir) && IsDeduped(Merged(sha, legacy, s.dir, order, s.alive), d)
    ensures var s := Exec(sha, s0, acts);
      forall e :: e in Sort(d) <==> Current(sha, s, legacy, e) || Leftover(sha, s, e)
  {
    var s := Exec(sha, s0, acts);
    RunKeeps(sha, s0, acts);
    ReadIsVisible(sha, legacy, s.dir, order, s.alive, d);
    forall e ensures e in Sort(d) <==> Current(sha, s, legacy, e) || Leftover(sha, s, e) {
      VisibleIsCurrentOrLeftover(sha, s, legacy, e);
      assert e in Sort(d) <==> Visible(sha, legacy, s.dir, s.alive, e);
    }
  }

  // ---- What the actions taken say ------------------------------------------------------------------

  lemma {:induction false} ExecSnoc(sha: Digest, s: State, acts: seq<Action>, a: Action)
    ensures Exec(sha, s, acts + [a]) == Step(sha, Exec(sha, s, acts), a)
    decreases |acts|
  {
    if acts == [] {
      assert [a][1..] == [];
    } else {
      assert (acts + [a])[1..] == acts[1..] + [a];
      ExecSnoc(sha, Step(sha, s, acts[0]), acts[1..], a);
    }
  }

  /** The process was started, or ran from the first, and has not died since. */
  ghost predicate Runs(s0: State, acts: seq<Action>, pid: nat) {
    if acts == [] then pid in s0.alive
    else
      var front, a := acts[..|acts| - 1], acts[|acts| - 1];
      a == Start(pid) || (a != Die(pid) && Runs(s0, front, pid))
  }

  /** The identity was known from the first or claimed by a process that ran. */
  ghost predicate Known(s0: State, acts: seq<Action>, id: Identity) {
    if acts == [] then id in s0.used
    else
      var front := acts[..|acts| - 1];
      Known(s0, front, id) || (acts[|acts| - 1] == Claim(id) && Runs(s0, front, id.pid))
  }

  /** What a live owner of the identity has published and not removed, since it claimed the identity for
      the first time and as long as it lives. */
  ghost function LastPublished(s0: State, acts: seq<Action>, id: Identity): Option<Option<Entry>> {
    if acts == [] then None
    else
      var front, a := acts[..|acts| - 1], acts[|acts| - 1];
      var before := LastPublished(s0, front, id);
      if a == Claim(id) && Runs(s0, front, id.pid) && !Known(s0, front, id) then Some(None)
      else if a.Publish? && a.entry.Id() == id && before.Some? then Some(Some(a.entry))
      else if a == Remove(id) && before.Some? then Some(None)
      else if a == Die(id.pid) then None
      else before
  }

  /** In every run the owners, what they own, and the live processes are what the actions say. */
  lemma {:induction false} OwnedInEveryRun(sha: Digest, s0: State, acts: seq<Action>, id: Identity)
    requires Start0(sha, s0)
    ensures var s := Exec(sha, s0, acts);
      && (id.pid in s.alive <==> Runs(s0, acts, id.pid))
      && (id in s.used <==> Known(s0, acts, id))
      && LastPublished(s0, acts, id) == if id in s.owned then Some(s.owned[id]) else None
  {
    if acts != [] {
      var front, a := acts[..|acts| - 1], acts[|acts| - 1];
      assert acts == front + [a];
      ExecSnoc(sha, s0, front, a);
      OwnedInEveryRun(sha, s0, front, id);
      var s := Exec(sha, s0, front);
      assert a.Publish? ==> (Enabled(sha, s, a) <==> a.entry.Id() in s.owned);
    }
  }

  /** After every run, a read lists of an identity whose owner lives exactly what that owner last published
      and did not remove, and otherwise nothing but a legacy entry. */
  lemma PublishedListingInEveryRun(
    sha: Digest, s0: State, acts: seq<Action>, legacy: seq<Entry>, order: seq<string>, d: seq<Entry>, id: Identity)
    requires Injective(sha) && Start0(sha, s0)
    requires var s := Exec(sha, s0, acts);
      Enumerates(order, s.dir) && IsDeduped(Merged(sha, legacy, s.dir, order, s.alive), d)
    requires LastPublished(s0, acts, id).Some?
    ensures var published := LastPublished(s0, acts, id).value;
      forall e: Entry :: e.Id() == id ==> (e in Sort(d) <==> if published.Some? then published.value == e else IsLast(legacy, e))
  {
    var s := Exec(sha, s0, acts);
    RunKeeps(sha, s0, acts);
    OwnedInEveryRun(sha, s0, acts, id);
    ListingInEveryRun(sha, s0, acts, legacy, order, d);
    assert Faithful(sha, s, id);
    forall e: Entry | e.Id() == id
      ensures e in Sort(d) <==> Current(sha, s, legacy, e)
      ensures LegacyShows(legacy, s.alive, e) <==> IsLast(legacy, e)
    {
      LastLegacy(legacy, s.alive, e);
      assert e.pid in s.alive;
    }
  }

  /** The pid of every identity without an owner is dead; no pid has been reused. */
  ghost predicate NoPidReused(s: State) {
    forall id :: id in s.used && id !in s.owned ==> id.pid !in s.alive
  }

  /** Without reused pids, a read lists exactly the current entries. */
  lemma ListingWithoutReuse(
    sha: Digest, s0: State, acts: seq<Action>, legacy: seq<Entry>, order: seq<string>, d: seq<Entry>)
    requires Injective(sha) && Start0(sha, s0) && NoPidReused(Exec(sha, s0, acts))
    requires var s := Exec(sha, s0, acts);
      Enumerates(order, s.dir) && IsDeduped(Merged(sha, legacy, s.dir, order, s.alive), d)
    ensures forall e :: e in Sort(d) <==> Current(sha, Exec(sha, s0, acts), legacy, e)
  {
    ListingInEveryRun(sha, s0, acts, legacy, order, d);
  }

  lemma ExecCons(sha: Digest, s: State, a: Action, rest: seq<Action>)
    ensures Exec(sha, s, [a] + rest) == Exec(sha, Step(sha, s, a), rest)
  {
    assert ([a] + rest)[1..] == rest;
  }

  /** With reuse it can list a server that is gone: its process died without removing its file and
      an unrelated process got its pid. */
  lemma ReusedPidListsADeadServer(sha: Digest, e: Entry)
    requires Injective(sha)
    ensures var acts := [Start(e.pid)] + ([Claim(e.Id())] + ([Publish(e)] + ([Die(e.pid)] + ([Start(e.pid)] + []))));
      var s := Exec(sha, State(map[], {}, map[], {}, {}, {}), acts);
      s.owned == map[] && Leftover(sha, s, e)
  {
    var s0 := State(map[], {}, map[], {}, {}, {});
    var s1 := Step(sha, s0, Start(e.pid));
    var s2 := Step(sha, s1, Claim(e.Id()));
    var s3 := Step(sha, s2, Publish(e));
    var s4 := Step(sha, s3, Die(e.pid));
    assert s4.owned == map[];
    ExecCons(sha, s0, Start(e.pid), [Claim(e.Id())] + ([Publish(e)] + ([Die(e.pid)] + ([Start(e.pid)] + []))));
    ExecCons(sha, s1, Claim(e.Id()), [Publish(e)] + ([Die(e.pid)] + ([Start(e.pid)] + [])));
    ExecCons(sha, s2, Publish(e), [Die(e.pid)] + ([Start(e.pid)] + []));
    ExecCons(sha, s3, Die(e.pid), [Start(e.pid)] + []);
    ExecCons(sha, s4, Start(e.pid), []);
  }

  // ---- Publishing and removing ---------------------------------------------------------------------

  /** Where an atomic write stops: creating or filling the temporary file, renaming it, or setting
      the permissions of the renamed file. */
  datatype WriteOutcome = NotCreated | NotFilled(partial: Body) | NotRenamed | NotRestricted | Written

  predicate Renamed(o: WriteOutcome) {
    o.NotRestricted? || o.Written?
  }

  /** The steps of a write whose temporary file was filled. */
  function StagedWrite(entry: Entry, temp: string, renamed: bool): (acts: seq<Action>)
    ensures forall a :: a in acts ==> a == Publish(entry) || ((a.Stage? || a.Unstage?) && a.name == temp)
    ensures Publish(entry) in acts <==> renamed
  {
    if renamed then [Stage(temp, Parsed(entry)), Publish(entry), Unstage(temp)]
    else [Stage(temp, Parsed(entry)), Unstage(temp)]
  }

  lemma StagedWriteRuns(sha: Digest, s: State, entry: Entry, temp: string, renamed: bool)
    requires entry.Id() in s.owned && !JsonName(temp) && temp !in s.dir
    ensures Exec(sha, s, StagedWrite(entry, temp, renamed)).dir ==
      if renamed then s.dir[EntryFileName(sha, entry.Id()) := Parsed(entry)] else s.dir
  {
    EntryFileNameIsJson(sha, entry.Id());
    var staged := Step(sha, s, Stage(temp, Parsed(entry)));
    var before := if renamed then Step(sha, staged, Publish(entry)) else staged;
    assert StagedWrite(entry, temp, renamed) ==
      [Stage(temp, Parsed(entry))] + ((if renamed then [Publish(entry)] else []) + ([Unstage(temp)] + []));
    ExecCons(sha, s, Stage(temp, Parsed(entry)), (if renamed then [Publish(entry)] else []) + ([Unstage(temp)] + []));
    if renamed {
      ExecCons(sha, staged, Publish(entry), [Unstage(temp)] + []);
    } else {
      assert [] + ([Unstage(temp)] + []) == [Unstage(temp)] + [];
    }
    ExecCons(sha, before, Unstage(temp), []);
  }

  lemma RenameEffect(dir: Dir, temp: string, final: string, body: Body)
    requires temp !in dir && temp != final
    ensures dir[temp := body][final := body] - {temp} == dir[final := body]
    ensures dir[temp := body] - {temp} == dir
  {
  }

  class EntriesDirectory {
    const sha: Digest
    var dir: Dir

    constructor (sha: Digest, dir: Dir)
      ensures this.sha == sha && this.dir == dir
    {
      this.sha, this.dir := sha, dir;
    }

    /** Writes a temporary file and renames it over the entry. Readers see the old or the new entry at
        every point: the steps are the atomic publish and steps on the temporary file. An error means
        that nothing was published, except when only the final change of permissions failed. */
    method PublishEndpoint(entry: Entry, temp: string, outcome: WriteOutcome, ghost s: State)
      returns (r: Result<(), IoError>, ghost acts: seq<Action>)
      requires s.dir == dir && entry.Id() in s.owned && !JsonName(temp) && temp !in dir
      modifies this
      ensures r.Ok? <==> outcome.Written?
      ensures Exec(sha, s, acts).dir == dir
      ensures forall a :: a in acts ==> a == Publish(entry) || ((a.Stage? || a.Unstage?) && a.name == temp)
      ensures Publish(entry) in acts <==> outcome.NotRestricted? || outcome.Written?
      ensures outcome.NotRestricted? || outcome.Written? ==>
        dir == old(dir)[EntryFileName(sha, entry.Id()) := Parsed(entry)]
      ensures outcome.NotCreated? || outcome.NotFilled? || outcome.NotRenamed? ==>
        dir == if outcome.NotFilled? then old(dir)[temp := outcome.partial] else old(dir)
    {
      EntryFileNameIsJson(sha, entry.Id());
      acts := [];
      var finalPath := EntryFileName(sha, entry.Id());
      if outcome.NotCreated? {
        return Err(IoError), acts;
      }
      if outcome.NotFilled? {
        dir := dir[temp := outcome.partial];
        acts := [Stage(temp, outcome.partial)];
        ExecCons(sha, s, acts[0], []);
        return Err(IoError), acts;
      }
      RenameEffect(dir, temp, finalPath, Parsed(entry));
      StagedWriteRuns(sha, s, entry, temp, Renamed(outcome));
      acts := StagedWrite(entry, temp, Renamed(outcome));
      dir := dir[temp := Parsed(entry)];
      if Renamed(outcome) {
        dir := dir[finalPath := Parsed(entry)] - {temp};
        r := if outcome.Written? then Ok(()) else Err(IoError);
      } else {
        dir := dir - {temp};
        r := Err(IoError);
      }
    }

    /** Removes the identity's own file and no other; a failure is ignored. */
    method RemoveEndpoint(id: Identity, ok: bool, ghost s: State)
      requires Injective(sha) && s.dir == dir && id in s.owned
      modifies this
      ensures ok ==> dir == old(dir) - {EntryFileName(sha, id)} && dir == Step(sha, s, Remove(id)).dir
      ensures ok ==> !FileShows(sha, dir, id)
      ensures !ok ==> dir == old(dir)
      ensures forall other :: other != id ==> (FileShows(sha, dir, other) <==> FileShows(sha, old(dir), other))
    {
      if ok {
        dir := dir - {EntryFileName(sha, id)};
        forall other | other != id ensures FileShows(sha, dir, other) <==> FileShows(sha, old(dir), other) {
          NamesDiffer(sha, other, id);
        }
      }
    }
  }
}
