/** The web server manager: one download or start task per version, reference-counted connections, the
    timer that ends unused servers, and the version prefix of request paths.

    A run interleaves the locked sections of the manager with the steps of the spawned tasks and with
    connections being made and dropped. */
module ServeWeb {
  import opened Basics

  datatype Key = Key(quality: string, commit: string)

  /** `Finished` is a task that has ended but not yet taken the lock to remove its key. */
  datatype Stage = Downloading | Running | Finished | Gone

  datatype Outcome = Ready | Broken

  /** A spawned task with the barrier it opens and the client counter of its server. */
  datatype Task = Task(key: Key, stage: Stage, outcome: Option<Outcome>, clients: int)

  datatype VersionState = VersionState(task: nat, downloaded: bool)

  type Versions = map<Key, VersionState>

  /** `handles` has one entry per connection handle ever made; a dropped handle is `None`. */
  datatype State = State(versions: Versions, tasks: seq<Task>, handles: seq<Option<nat>>)

  datatype Action =
    | Get(key: Key, cached: bool)
    | Downloaded(task: nat, ok: bool)
    | SpawnFailed(task: nat)
    | Bound(task: nat)
    | Ended(task: nat)
    | Cleanup(task: nat)
    | Connect(task: nat)
    | Release(handle: nat)

  predicate InStage(s: State, t: nat, stage: Stage) {
    t < |s.tasks| && s.tasks[t].stage == stage
  }

  predicate Enabled(s: State, a: Action) {
    match a
    case Get(key, _) => key in s.versions ==> s.versions[key].task < |s.tasks|
    case Downloaded(t, _) => InStage(s, t, Downloading)
    case SpawnFailed(t) => InStage(s, t, Running) && s.tasks[t].outcome.None?
    case Bound(t) => InStage(s, t, Running)
    case Ended(t) => InStage(s, t, Running)
    case Cleanup(t) => InStage(s, t, Finished)
    case Connect(t) => t < |s.tasks| && s.tasks[t].outcome == Some(Ready)
    case Release(h) => h < |s.handles| && s.handles[h].Some? && s.handles[h].value < |s.tasks|
  }

  function StepGet(s: State, key: Key, cached: bool): State
    requires Enabled(s, Get(key, cached))
  {
    if key in s.versions then
      var v := s.versions[key];
      if !v.downloaded && s.tasks[v.task].outcome.Some?
      then s.(versions := s.versions[key := v.(downloaded := true)]) else s
    else
      s.(versions := s.versions[key := VersionState(|s.tasks|, cached)],
         tasks := s.tasks + [Task(key, if cached then Running else Downloading, None, 0)])
  }

  /** The task whose barrier the caller may wait on; `None` is the "not yet downloaded" error. */
  function GetResult(s: State, key: Key, cached: bool): Option<nat>
    requires Enabled(s, Get(key, cached))
  {
    if key in s.versions then
      var v := s.versions[key];
      if v.downloaded || s.tasks[v.task].outcome.Some? then Some(v.task) else None
    else if cached then Some(|s.tasks|) else None
  }

  function SetTask(s: State, t: nat, task: Task): State
    requires t < |s.tasks|
  {
    s.(tasks := s.tasks[t := task])
  }

  function Step(s: State, a: Action): State {
    if !Enabled(s, a) then s else
    match a
    case Get(key, cached) => StepGet(s, key, cached)
    case Downloaded(t, ok) =>
      SetTask(s, t, if ok then s.tasks[t].(stage := Running) else s.tasks[t].(stage := Finished, outcome := Some(Broken)))
    case SpawnFailed(t) => SetTask(s, t, s.tasks[t].(stage := Finished, outcome := Some(Broken)))
    case Bound(t) => if s.tasks[t].outcome.None? then SetTask(s, t, s.tasks[t].(outcome := Some(Ready))) else s
    case Ended(t) => SetTask(s, t, s.tasks[t].(stage := Finished))
    case Cleanup(t) => SetTask(s, t, s.tasks[t].(stage := Gone)).(versions := s.versions - {s.tasks[t].key})
    case Connect(t) =>
      SetTask(s, t, s.tasks[t].(clients := s.tasks[t].clients + 1)).(handles := s.handles + [Some(t)])
    case Release(h) =>
      var t := s.handles[h].value;
      SetTask(s, t, s.tasks[t].(clients := s.tasks[t].clients - 1)).(handles := s.handles[h := None])
  }

  function Exec(s: State, acts: seq<Action>): State
    decreases |acts|
  {
    if acts == [] then s else Exec(Step(s, acts[0]), acts[1..])
  }

  const Initial := State(map[], [], [])

  // ---- One task per version, one count per connection -----------------------------------------------

  function Live(handles: seq<Option<nat>>, t: nat): nat {
    if handles == [] then 0 else (if handles[0] == Some(t) then 1 else 0) + Live(handles[1..], t)
  }

  lemma {:induction false} LiveSnoc(handles: seq<Option<nat>>, h: Option<nat>, t: nat)
    ensures Live(handles + [h], t) == Live(handles, t) + (if h == Some(t) then 1 else 0)
  {
    if handles == [] {
      assert [h][1..] == [];
    } else {
      assert (handles + [h])[1..] == handles[1..] + [h];
      LiveSnoc(handles[1..], h, t);
    }
  }

  lemma {:induction false} LiveDrop(handles: seq<Option<nat>>, i: nat, t: nat)
    requires i < |handles|
    ensures Live(handles[i := None], t) == Live(handles, t) - (if handles[i] == Some(t) then 1 else 0)
  {
    if i == 0 {
      assert handles[0 := None][1..] == handles[1..];
    } else {
      assert handles[i := None][1..] == handles[1..][i - 1 := None];
      LiveDrop(handles[1..], i - 1, t);
    }
  }

  lemma {:induction false} LiveBeyond(handles: seq<Option<nat>>, t: nat)
    requires forall h :: 0 <= h < |handles| && handles[h].Some? ==> handles[h].value < t
    ensures Live(handles, t) == 0
  {
    if handles != [] {
      LiveBeyond(handles[1..], t);
    }
  }

  /** The map holds exactly the tasks that have not cleaned up, each under its own key. */
  ghost predicate MapOk(s: State) {
    && (forall key :: key in s.versions ==>
          var t := s.versions[key].task; t < |s.tasks| && s.tasks[t].key == key && !s.tasks[t].stage.Gone?)
    && (forall t :: 0 <= t < |s.tasks| && !s.tasks[t].stage.Gone? ==>
          s.tasks[t].key in s.versions && s.versions[s.tasks[t].key].task == t)
    && (forall key :: key in s.versions && s.versions[key].downloaded ==>
          !s.tasks[s.versions[key].task].stage.Downloading?)
    && (forall t :: 0 <= t < |s.tasks| && s.tasks[t].stage.Downloading? ==> s.tasks[t].outcome.None?)
  }

  ghost predicate CountsOk(s: State) {
    && (forall h :: 0 <= h < |s.handles| && s.handles[h].Some? ==> s.handles[h].value < |s.tasks|)
    && (forall t :: 0 <= t < |s.tasks| ==> s.tasks[t].clients == Live(s.handles, t))
  }

  /** A task may advance under its key, short of cleaning up; it stops downloading for good. */
  lemma AdvanceKeepsMap(s: State, t: nat, task: Task)
    requires MapOk(s) && t < |s.tasks| && task.key == s.tasks[t].key
    requires task.stage == s.tasks[t].stage || (!s.tasks[t].stage.Gone? && !task.stage.Gone? && !task.stage.Downloading?)
    requires task.stage.Downloading? ==> task.outcome.None?
    ensures MapOk(SetTask(s, t, task))
  {
    var s' := SetTask(s, t, task);
    forall key | key in s'.versions && s'.versions[key].downloaded
      ensures !s'.tasks[s'.versions[key].task].stage.Downloading?
    {
      assert !s.tasks[s.versions[key].task].stage.Downloading?;
    }
  }

  lemma GetKeepsMap(s: State, key: Key, cached: bool)
    requires MapOk(s) && Enabled(s, Get(key, cached))
    ensures MapOk(StepGet(s, key, cached))
  {
    if key !in s.versions {
      var s' := StepGet(s, key, cached);
      forall t | 0 <= t < |s'.tasks| && !s'.tasks[t].stage.Gone?
        ensures s'.tasks[t].key in s'.versions && s'.versions[s'.tasks[t].key].task == t
      {
        if t < |s.tasks| {
          assert s.tasks[t].key in s.versions;
        }
      }
      forall k | k in s'.versions
        ensures var t := s'.versions[k].task; t < |s'.tasks| && s'.tasks[t].key == k && !s'.tasks[t].stage.Gone?
      {
        assert k == key || k in s.versions;
      }
    }
  }

  lemma CleanupKeepsMap(s: State, t: nat)
    requires MapOk(s) && Enabled(s, Cleanup(t))
    ensures MapOk(Step(s, Cleanup(t)))
  {
    var s' := Step(s, Cleanup(t));
    forall u | 0 <= u < |s'.tasks| && !s'.tasks[u].stage.Gone?
      ensures s'.tasks[u].key in s'.versions && s'.versions[s'.tasks[u].key].task == u
    {
      assert s'.tasks[u] == s.tasks[u];
    }
  }

  lemma HandleKeepsMap(s: State, a: Action)
    requires MapOk(s) && Enabled(s, a) && (a.Connect? || a.Release?)
    ensures MapOk(Step(s, a))
  {
    var t := if a.Connect? then a.task else s.handles[a.handle].value;
    var task := s.tasks[t].(clients := s.tasks[t].clients + if a.Connect? then 1 else -1);
    AdvanceKeepsMap(s, t, task);
    assert Step(s, a).tasks == SetTask(s, t, task).tasks && Step(s, a).versions == s.versions;
  }

  lemma TaskKeepsMap(s: State, a: Action)
    requires MapOk(s) && Enabled(s, a) && (a.Downloaded? || a.SpawnFailed? || a.Bound? || a.Ended?)
    ensures MapOk(Step(s, a))
  {
    var task := Step(s, a).tasks[a.task];
    AdvanceKeepsMap(s, a.task, task);
    assert Step(s, a).tasks == SetTask(s, a.task, task).tasks && Step(s, a).versions == s.versions;
  }

  lemma StepKeepsMap(s: State, a: Action)
    requires MapOk(s)
    ensures MapOk(Step(s, a))
  {
    if Enabled(s, a) {
      if a.Get? {
        GetKeepsMap(s, a.key, a.cached);
      } else if a.Cleanup? {
        CleanupKeepsMap(s, a.task);
      } else if a.Connect? || a.Release? {
        HandleKeepsMap(s, a);
      } else {
        TaskKeepsMap(s, a);
      }
    }
  }

  lemma StepKeepsCounts(s: State, a: Action)
    requires CountsOk(s)
    ensures CountsOk(Step(s, a))
  {
    var s' := Step(s, a);
    forall t | 0 <= t < |s'.tasks| ensures s'.tasks[t].clients == Live(s'.handles, t) {
      if Enabled(s, a) {
        match a
        case Get(_, _) => LiveBeyond(s.handles, |s.tasks|);
        case Connect(u) => LiveSnoc(s.handles, Some(u), t);
        case Release(h) => LiveDrop(s.handles, h, t);
        case _ =>
      }
    }
  }

  lemma {:induction false} RunKeeps(s: State, acts: seq<Action>)
    requires MapOk(s) && CountsOk(s)
    ensures MapOk(Exec(s, acts)) && CountsOk(Exec(s, acts))
    decreases |acts|
  {
    if acts != [] {
      StepKeepsMap(s, acts[0]);
      StepKeepsCounts(s, acts[0]);
      RunKeeps(Step(s, acts[0]), acts[1..]);
    }
  }

  /** In every run a version has at most one task, and its key is present exactly while that runs. */
  lemma SingleFlightInEveryRun(acts: seq<Action>)
    ensures var s := Exec(Initial, acts);
      && (forall t, u :: 0 <= t < u < |s.tasks| && !s.tasks[t].stage.Gone? && !s.tasks[u].stage.Gone? ==>
            s.tasks[t].key != s.tasks[u].key)
      && (forall key :: key in s.versions <==> exists t :: 0 <= t < |s.tasks| && s.tasks[t].key == key && !s.tasks[t].stage.Gone?)
  {
    RunKeeps(Initial, acts);
    var s := Exec(Initial, acts);
    forall key | key in s.versions
      ensures exists t :: 0 <= t < |s.tasks| && s.tasks[t].key == key && !s.tasks[t].stage.Gone?
    {
      var t := s.versions[key].task;
      assert s.tasks[t].key == key;
    }
  }

  /** In every run each counter is the number of live handles, so dropping one never underflows. */
  lemma CountersInEveryRun(acts: seq<Action>)
    ensures var s := Exec(Initial, acts);
      && (forall t :: 0 <= t < |s.tasks| ==> s.tasks[t].clients == Live(s.handles, t))
      && (forall h :: 0 <= h < |s.handles| && s.handles[h].Some? ==>
            s.handles[h].value < |s.tasks| && s.tasks[s.handles[h].value].clients >= 1)
  {
    RunKeeps(Initial, acts);
    var s := Exec(Initial, acts);
    forall h | 0 <= h < |s.handles| && s.handles[h].Some? ensures s.tasks[s.handles[h].value].clients >= 1 {
      LiveDrop(s.handles, h, s.handles[h].value);
    }
  }

  /** A lookup starts a task exactly when none exists for the version. It returns the version's one
      task when it was cached, or its outcome is known, and asks the client to retry otherwise. */
  lemma GetInEveryRun(acts: seq<Action>, key: Key, cached: bool)
    ensures var s := Exec(Initial, acts); var s' := Step(s, Get(key, cached));
      && Enabled(s, Get(key, cached))
      && key in s'.versions
      && |s'.tasks| == |s.tasks| + (if key in s.versions then 0 else 1)
      && (GetResult(s, key, cached).Some? ==> GetResult(s, key, cached).value == s'.versions[key].task)
      && (GetResult(s, key, cached).Some? <==> s'.versions[key].downloaded)
      && (s'.versions[key].downloaded ==> !s'.tasks[s'.versions[key].task].stage.Downloading?)
  {
    RunKeeps(Initial, acts);
    StepKeepsMap(Exec(Initial, acts), Get(key, cached));
  }

  lemma StepOpensOnce(s: State, a: Action, t: nat)
    requires t < |s.tasks| && s.tasks[t].outcome.Some? && !s.tasks[t].stage.Downloading?
    ensures t < |Step(s, a).tasks| && Step(s, a).tasks[t].outcome == s.tasks[t].outcome
    ensures !Step(s, a).tasks[t].stage.Downloading?
  {
  }

  /** What a barrier was opened with never changes, through any further run. */
  lemma {:induction false} OpenedOnce(s: State, acts: seq<Action>, t: nat)
    requires t < |s.tasks| && s.tasks[t].outcome.Some? && !s.tasks[t].stage.Downloading?
    ensures t < |Exec(s, acts).tasks| && Exec(s, acts).tasks[t].outcome == s.tasks[t].outcome
    decreases |acts|
  {
    if acts != [] {
      StepOpensOnce(s, acts[0], t);
      OpenedOnce(Step(s, acts[0]), acts[1..], t);
    }
  }

  /** A failed download or start is told to everyone waiting, and once it is cleaned up the next lookup
      of the version tries again with a task of its own. */
  lemma FailureIsReportedAndRetried(acts: seq<Action>, a: Action, cached: bool)
    requires (a.Downloaded? && !a.ok) || a.SpawnFailed?
    requires Enabled(Exec(Initial, acts), a)
    ensures var s := Exec(Initial, acts);
      var failed := Step(s, a);
      var cleaned := Step(failed, Cleanup(a.task));
      var again := Get(s.tasks[a.task].key, cached);
      && failed.tasks[a.task].outcome == Some(Broken)
      && Enabled(failed, again) && GetResult(failed, s.tasks[a.task].key, cached) == Some(a.task)
      && s.tasks[a.task].key !in cleaned.versions
      && |Step(cleaned, again).tasks| == |cleaned.tasks| + 1
      && Step(cleaned, again).tasks[a.task].outcome == Some(Broken)
  {
    RunKeeps(Initial, acts);
    var s := Exec(Initial, acts);
    StepKeepsMap(s, a);
    assert s.versions[s.tasks[a.task].key].task == a.task;
  }

  lemma ExecCons(s: State, a: Action, rest: seq<Action>)
    ensures Exec(s, [a] + rest) == Exec(Step(s, a), rest)
  {
    assert ([a] + rest)[1..] == rest;
  }

  /** A lookup between a server's end and its cleanup is given the ended server. */
  lemma EndedServerIsHandedOut(key: Key)
    ensures var s := Exec(Initial, [Get(key, true)] + ([Bound(0)] + ([Ended(0)] + [])));
      Enabled(s, Get(key, true)) && GetResult(s, key, true) == Some(0) && InStage(s, 0, Finished)
      && Enabled(s, Connect(0))
  {
    var s1 := Step(Initial, Get(key, true));
    var s2 := Step(s1, Bound(0));
    ExecCons(Initial, Get(key, true), [Bound(0)] + ([Ended(0)] + []));
    ExecCons(s1, Bound(0), [Ended(0)] + []);
    ExecCons(s2, Ended(0), []);
  }

  /** The lookup is of a version whose task has ended but awaits its cleanup, and the outcome of which
      a lookup may hand out. */
  predicate AwaitsCleanup(s: State, key: Key) {
    && key in s.versions && s.versions[key].task < |s.tasks|
    && var t := s.tasks[s.versions[key].task];
      t.stage.Finished? && (s.versions[key].downloaded || t.outcome.Some?)
  }

  /** In every run a lookup is given an ended server exactly when the version's entry awaits its
      cleanup and was downloaded or has its barrier opened. Otherwise whatever it is given is running
      or starts just now. */
  lemma EndedServerIff(acts: seq<Action>, key: Key, cached: bool)
    ensures var s := Exec(Initial, acts);
      && Enabled(s, Get(key, cached))
      && var r, s' := GetResult(s, key, cached), Step(s, Get(key, cached));
        && (r.Some? ==> r.value < |s'.tasks| && s'.tasks[r.value].key == key)
        && (r.Some? && s'.tasks[r.value].stage.Finished? <==> AwaitsCleanup(s, key))
        && (r.Some? && !AwaitsCleanup(s, key) ==> s'.tasks[r.value].stage.Running?)
  {
    RunKeeps(Initial, acts);
  }

  // ---- What the actions taken say ------------------------------------------------------------------

  lemma {:induction false} ExecSnoc(s: State, acts: seq<Action>, a: Action)
    ensures Exec(s, acts + [a]) == Step(Exec(s, acts), a)
    decreases |acts|
  {
    if acts == [] {
      assert [a][1..] == [];
    } else {
      assert (acts + [a])[1..] == acts[1..] + [a];
      ExecSnoc(Step(s, acts[0]), acts[1..], a);
    }
  }

  /** The action was taken at a moment at which it could be. */
  ghost predicate Did(acts: seq<Action>, a: Action) {
    acts != [] &&
    var front := acts[..|acts| - 1];
    Did(front, a) || (acts[|acts| - 1] == a && Enabled(Exec(Initial, front), a))
  }

  /** The lookups that found no entry for their key, in order: the t-th one is answered by task t. */
  ghost function Starts(acts: seq<Action>): (gets: seq<Action>)
    ensures forall t :: 0 <= t < |gets| ==> gets[t].Get?
  {
    if acts == [] then []
    else
      var front, a := acts[..|acts| - 1], acts[|acts| - 1];
      if a.Get? && a.key !in Exec(Initial, front).versions then Starts(front) + [a] else Starts(front)
  }

  /** The tasks connected to, in order: the h-th one is behind handle h. */
  ghost function Connections(acts: seq<Action>): seq<nat> {
    if acts == [] then []
    else
      var front, a := acts[..|acts| - 1], acts[|acts| - 1];
      if a.Connect? && Enabled(Exec(Initial, front), a) then Connections(front) + [a.task] else Connections(front)
  }

  ghost predicate Failed(acts: seq<Action>, t: nat) {
    Did(acts, Downloaded(t, false)) || Did(acts, SpawnFailed(t))
  }

  /** The server's files are there: they were cached, or its download succeeded. */
  ghost predicate Launched(acts: seq<Action>, t: nat)
    requires t < |Starts(acts)|
  {
    Starts(acts)[t].cached || Did(acts, Downloaded(t, true))
  }

  ghost predicate TaskAsDone(acts: seq<Action>, t: nat, task: Task)
    requires t < |Starts(acts)|
  {
    && task.key == Starts(acts)[t].key
    && (task.stage.Downloading? <==> !Launched(acts, t) && !Did(acts, Downloaded(t, false)))
    && (task.stage.Running? <==> Launched(acts, t) && !Failed(acts, t) && !Did(acts, Ended(t)))
    && (task.stage.Gone? <==> Did(acts, Cleanup(t)))
    && (Did(acts, Ended(t)) ==> Launched(acts, t))
    && (task.outcome == Some(Broken) <==> Failed(acts, t))
    && (task.outcome == Some(Ready) <==> Did(acts, Bound(t)))
  }

  /** No task of this number has been started, so nothing was done with it. */
  ghost predicate Untouched(acts: seq<Action>, t: nat) {
    && !Did(acts, Downloaded(t, true)) && !Did(acts, Downloaded(t, false)) && !Did(acts, SpawnFailed(t))
    && !Did(acts, Bound(t)) && !Did(acts, Ended(t)) && !Did(acts, Cleanup(t))
  }

  lemma DidSnoc(acts: seq<Action>, b: Action)
    ensures forall a :: Did(acts + [b], a) <==> Did(acts, a) || (a == b && Enabled(Exec(Initial, acts), a))
  {
    assert (acts + [b])[..|acts + [b]| - 1] == acts;
  }

  lemma StartsSnoc(acts: seq<Action>, b: Action)
    ensures Starts(acts + [b]) ==
      Starts(acts) + (if b.Get? && b.key !in Exec(Initial, acts).versions then [b] else [])
  {
    assert (acts + [b])[..|acts + [b]| - 1] == acts;
  }

  /** The step belongs to the task's own life. */
  predicate Concerns(b: Action, t: nat) {
    (b.Downloaded? || b.SpawnFailed? || b.Bound? || b.Ended? || b.Cleanup?) && b.task == t
  }

  lemma OthersKeepIt(s: State, b: Action, t: nat)
    requires t < |s.tasks| && !Concerns(b, t)
    ensures t < |Step(s, b).tasks|
    ensures var before, after := s.tasks[t], Step(s, b).tasks[t];
      after.key == before.key && after.stage == before.stage && after.outcome == before.outcome
  {
  }

  lemma OtherStep(acts: seq<Action>, b: Action, t: nat)
    requires var s := Exec(Initial, acts);
      t < |s.tasks| == |Starts(acts)| && TaskAsDone(acts, t, s.tasks[t])
    requires !Concerns(b, t)
    ensures t < |Starts(acts + [b])| && t < |Step(Exec(Initial, acts), b).tasks|
    ensures TaskAsDone(acts + [b], t, Step(Exec(Initial, acts), b).tasks[t])
  {
    DidSnoc(acts, b);
    StartsSnoc(acts, b);
    assert Starts(acts + [b])[t] == Starts(acts)[t];
    OthersKeepIt(Exec(Initial, acts), b, t);
  }

  lemma OwnStep(acts: seq<Action>, b: Action, t: nat)
    requires var s := Exec(Initial, acts);
      MapOk(s) && t < |s.tasks| == |Starts(acts)| && TaskAsDone(acts, t, s.tasks[t])
    requires Concerns(b, t)
    ensures t < |Starts(acts + [b])| && t < |Step(Exec(Initial, acts), b).tasks|
    ensures TaskAsDone(acts + [b], t, Step(Exec(Initial, acts), b).tasks[t])
  {
    var s := Exec(Initial, acts);
    DidSnoc(acts, b);
    StartsSnoc(acts, b);
    assert Starts(acts + [b]) == Starts(acts);
    if Enabled(s, b) {
      var after := Step(s, b).tasks[t];
      match b
      case Downloaded(_, ok) =>
        assert !Launched(acts, t);
      case SpawnFailed(_) =>
        assert after.stage == Finished && after.outcome == Some(Broken);
      case Bound(_) =>
        assert after.outcome.Some? && !after.outcome.value.Broken?;
      case Ended(_) =>
        assert after.stage == Finished;
      case Cleanup(_) =>
        assert after.stage == Gone;
    } else {
      assert Step(s, b) == s;
    }
  }

  lemma UntouchedStep(acts: seq<Action>, b: Action, t: nat)
    requires t >= |Exec(Initial, acts).tasks| == |Starts(acts)| && Untouched(acts, t) && MapOk(Exec(Initial, acts))
    ensures |Starts(acts + [b])| == |Step(Exec(Initial, acts), b).tasks|
    ensures Untouched(acts + [b], t)
  {
    DidSnoc(acts, b);
    StartsSnoc(acts, b);
    assert Concerns(b, t) ==> !Enabled(Exec(Initial, acts), b);
  }

  lemma StartedStep(acts: seq<Action>, key: Key, cached: bool, t: nat)
    requires t == |Exec(Initial, acts).tasks| == |Starts(acts)| && Untouched(acts, t)
    requires key !in Exec(Initial, acts).versions
    ensures var b := Get(key, cached);
      && t < |Starts(acts + [b])| && t < |Step(Exec(Initial, acts), b).tasks|
      && TaskAsDone(acts + [b], t, Step(Exec(Initial, acts), b).tasks[t])
  {
    var b := Get(key, cached);
    DidSnoc(acts, b);
    StartsSnoc(acts, b);
    assert Starts(acts + [b])[t] == b;
    assert Step(Exec(Initial, acts), b).tasks[t] == Task(key, if cached then Running else Downloading, None, 0);
  }

  lemma {:induction false} TaskInEveryRun(acts: seq<Action>, t: nat)
    ensures var s := Exec(Initial, acts);
      && MapOk(s) && |s.tasks| == |Starts(acts)|
      && if t < |s.tasks| then TaskAsDone(acts, t, s.tasks[t]) else Untouched(acts, t)
  {
    RunKeeps(Initial, acts);
    if acts != [] {
      var front, b := acts[..|acts| - 1], acts[|acts| - 1];
      assert acts == front + [b];
      ExecSnoc(Initial, front, b);
      TaskInEveryRun(front, t);
      TaskInEveryRun(front, |Starts(front)|);
      UntouchedStep(front, b, |Starts(front)|);
      if t < |Starts(front)| {
        if Concerns(b, t) {
          OwnStep(front, b, t);
        } else {
          OtherStep(front, b, t);
        }
      } else {
        UntouchedStep(front, b, t);
        if t < |Starts(acts)| {
          StartsSnoc(front, b);
          StartedStep(front, b.key, b.cached, t);
        }
      }
    }
  }

  /** What has become of each task in every run, said by the actions taken: it downloads until that ends
      unless its version was cached, runs from then on until it ends, and has its barrier opened with the
      first of a failure and the server being bound. */
  lemma TaskHistoryInEveryRun(acts: seq<Action>, t: nat)
    requires t < |Starts(acts)|
    ensures t < |Exec(Initial, acts).tasks|
    ensures var task, cached := Exec(Initial, acts).tasks[t], Starts(acts)[t].cached;
      var failed := Did(acts, Downloaded(t, false)) || Did(acts, SpawnFailed(t));
      && (task.stage.Downloading? <==> !cached && !Did(acts, Downloaded(t, true)) && !Did(acts, Downloaded(t, false)))
      && (task.stage.Running? <==> (cached || Did(acts, Downloaded(t, true))) && !failed && !Did(acts, Ended(t)))
      && (task.stage.Gone? <==> Did(acts, Cleanup(t)))
      && (task.outcome == Some(Broken) <==> failed)
      && (task.outcome == Some(Ready) <==> Did(acts, Bound(t)))
  {
    TaskInEveryRun(acts, t);
  }

  /** Which steps can be taken next, said by the actions taken before. */
  lemma GuardsInEveryRun(acts: seq<Action>, t: nat)
    requires t < |Starts(acts)|
    ensures var s, cached := Exec(Initial, acts), Starts(acts)[t].cached;
      var failed := Did(acts, Downloaded(t, false)) || Did(acts, SpawnFailed(t));
      var running := (cached || Did(acts, Downloaded(t, true))) && !failed && !Did(acts, Ended(t));
      && (forall ok :: Enabled(s, Downloaded(t, ok)) <==> !cached && !Did(acts, Downloaded(t, true)) && !failed)
      && (Enabled(s, SpawnFailed(t)) <==> running && !Did(acts, Bound(t)))
      && (Enabled(s, Bound(t)) <==> running)
      && (Enabled(s, Ended(t)) <==> running)
      && (Enabled(s, Cleanup(t)) <==> (failed || Did(acts, Ended(t))) && !Did(acts, Cleanup(t)))
      && (Enabled(s, Connect(t)) <==> Did(acts, Bound(t)))
  {
    TaskInEveryRun(acts, t);
    var task := Exec(Initial, acts).tasks[t];
    assert task.outcome.Some? ==> task.outcome.value.Ready? || task.outcome.value.Broken?;
  }

  /** An entry counts as downloaded from the start when its version was cached, and otherwise only once the
      barrier is open. */
  ghost predicate FlagOk(acts: seq<Action>, s: State, key: Key) {
    key in s.versions ==>
      var v := s.versions[key];
      && v.task < |Starts(acts)| && v.task < |s.tasks|
      && (Starts(acts)[v.task].cached ==> v.downloaded)
      && (v.downloaded ==> Starts(acts)[v.task].cached || s.tasks[v.task].outcome.Some?)
  }

  /** What a step makes of an entry. */
  lemma EntryStep(s: State, b: Action, key: Key)
    requires MapOk(s) && key in Step(s, b).versions
    ensures var v' := Step(s, b).versions[key];
      if key in s.versions then
        var v := s.versions[key];
        && v'.task == v.task && (v.downloaded ==> v'.downloaded)
        && (v'.downloaded ==> v.downloaded || s.tasks[v.task].outcome.Some?)
      else b == Get(key, v'.downloaded) && v'.task == |s.tasks|
  {
  }

  lemma FlagStep(acts: seq<Action>, b: Action, key: Key)
    requires MapOk(Exec(Initial, acts)) && FlagOk(acts, Exec(Initial, acts), key)
    requires |Starts(acts)| == |Exec(Initial, acts).tasks|
    ensures FlagOk(acts + [b], Step(Exec(Initial, acts), b), key)
  {
    var s := Exec(Initial, acts);
    StartsSnoc(acts, b);
    if key in Step(s, b).versions {
      EntryStep(s, b, key);
      if key in s.versions {
        var t := s.versions[key].task;
        assert Starts(acts + [b])[t] == Starts(acts)[t];
        if s.tasks[t].outcome.Some? {
          StepOpensOnce(s, b, t);
        }
      }
    }
  }

  lemma {:induction false} FlagInEveryRun(acts: seq<Action>, key: Key)
    ensures FlagOk(acts, Exec(Initial, acts), key)
  {
    if acts != [] {
      var front, b := acts[..|acts| - 1], acts[|acts| - 1];
      assert acts == front + [b];
      ExecSnoc(Initial, front, b);
      TaskInEveryRun(front, 0);
      FlagInEveryRun(front, key);
      FlagStep(front, b, key);
    }
  }

  /** What a lookup does in every run, said by the actions taken before it. With no task left for the
      version it starts one, which runs at once if the version is cached and downloads it first if not, and
      only the cached one is returned. Otherwise it starts nothing and returns the one task left if its
      version was cached or its barrier is open. */
  lemma LookupInEveryRun(acts: seq<Action>, key: Key, cached: bool)
    ensures Enabled(Exec(Initial, acts), Get(key, cached))
    ensures var s := Exec(Initial, acts);
      var r, s', starts := GetResult(s, key, cached), Step(s, Get(key, cached)), Starts(acts);
      && ((forall t: nat :: t < |starts| && starts[t].key == key ==> Did(acts, Cleanup(t))) ==>
            && r == (if cached then Some(|starts|) else None)
            && s'.tasks == s.tasks + [Task(key, if cached then Running else Downloading, None, 0)])
      && (forall t: nat :: t < |starts| && starts[t].key == key && !Did(acts, Cleanup(t)) ==>
            var open := Did(acts, Bound(t)) || Did(acts, Downloaded(t, false)) || Did(acts, SpawnFailed(t));
            r == (if starts[t].cached || open then Some(t) else None) && s'.tasks == s.tasks)
  {
    var s, starts := Exec(Initial, acts), Starts(acts);
    TaskInEveryRun(acts, |starts|);
    FlagInEveryRun(acts, key);
    if key in s.versions {
      TaskInEveryRun(acts, s.versions[key].task);
    }
    forall t: nat | t < |starts| && starts[t].key == key && !Did(acts, Cleanup(t))
      ensures key in s.versions && s.versions[key].task == t
    {
      TaskInEveryRun(acts, t);
    }
    if key in s.versions {
      var task := s.tasks[s.versions[key].task];
      assert task.outcome.Some? ==> task.outcome.value.Ready? || task.outcome.value.Broken?;
    }
  }

  lemma ConnectionsSnoc(acts: seq<Action>, b: Action)
    ensures Connections(acts + [b]) ==
      Connections(acts) + (if b.Connect? && Enabled(Exec(Initial, acts), b) then [b.task] else [])
  {
    assert (acts + [b])[..|acts + [b]| - 1] == acts;
  }

  ghost predicate HandlesDone(acts: seq<Action>, handles: seq<Option<nat>>) {
    var made := Connections(acts);
    && |handles| == |made|
    && (forall h: nat :: h < |made| ==> handles[h] == if Did(acts, Release(h)) then None else Some(made[h]))
    && (forall h: nat :: h >= |made| ==> !Did(acts, Release(h)))
  }

  lemma HandleStep(acts: seq<Action>, b: Action)
    requires CountsOk(Exec(Initial, acts)) && HandlesDone(acts, Exec(Initial, acts).handles)
    ensures HandlesDone(acts + [b], Step(Exec(Initial, acts), b).handles)
  {
    DidSnoc(acts, b);
    ConnectionsSnoc(acts, b);
  }

  lemma {:induction false} HandlesAsMade(acts: seq<Action>)
    ensures HandlesDone(acts, Exec(Initial, acts).handles)
  {
    if acts != [] {
      var front, b := acts[..|acts| - 1], acts[|acts| - 1];
      assert acts == front + [b];
      ExecSnoc(Initial, front, b);
      HandlesAsMade(front);
      RunKeeps(Initial, front);
      HandleStep(front, b);
    }
  }

  /** In every run there is one handle for each connection made, and it is live until it is dropped. */
  lemma HandlesInEveryRun(acts: seq<Action>)
    ensures var handles, made := Exec(Initial, acts).handles, Connections(acts);
      && |handles| == |made|
      && (forall h: nat :: h < |made| ==> handles[h] == if Did(acts, Release(h)) then None else Some(made[h]))
      && (forall h: nat :: Enabled(Exec(Initial, acts), Release(h)) <==> h < |made| && !Did(acts, Release(h)))
  {
    HandlesAsMade(acts);
    RunKeeps(Initial, acts);
  }

  lemma {:induction false} LiveIsCardinality(handles: seq<Option<nat>>, t: nat)
    ensures Live(handles, t) == |set h: nat | h < |handles| && handles[h] == Some(t)|
  {
    if handles != [] {
      var n := |handles| - 1;
      var rest := set h: nat | h < n && handles[..n][h] == Some(t);
      assert handles == handles[..n] + [handles[n]];
      LiveSnoc(handles[..n], handles[n], t);
      LiveIsCardinality(handles[..n], t);
      assert (set h: nat | h < |handles[..n]| && handles[..n][h] == Some(t)) == rest;
      assert (set h: nat | h < |handles| && handles[h] == Some(t)) ==
        (if handles[n] == Some(t) then rest + {n} else rest);
    }
  }

  /** The connections made to the server and not dropped. */
  ghost function LiveHandles(acts: seq<Action>, t: nat): set<nat> {
    set h: nat | h < |Connections(acts)| && Connections(acts)[h] == t && !Did(acts, Release(h))
  }

  lemma LiveHandlesAre(acts: seq<Action>, t: nat)
    ensures var handles := Exec(Initial, acts).handles;
      LiveHandles(acts, t) == set h: nat | h < |handles| && handles[h] == Some(t)
  {
    HandlesAsMade(acts);
  }

  /** In every run a server's client counter is the number of connections made to it and not dropped. */
  lemma ClientsInEveryRun(acts: seq<Action>, t: nat)
    requires t < |Starts(acts)|
    ensures t < |Exec(Initial, acts).tasks|
    ensures Exec(Initial, acts).tasks[t].clients == |LiveHandles(acts, t)|
  {
    TaskInEveryRun(acts, t);
    CountersInEveryRun(acts);
    LiveIsCardinality(Exec(Initial, acts).handles, t);
    LiveHandlesAre(acts, t);
  }

  // ---- The manager ---------------------------------------------------------------------------------

  class ConnectionManager {
    var state: Versions
    var tasks: seq<Task>
    var handles: seq<Option<nat>>

    ghost function View(): State
      reads this
    {
      State(state, tasks, handles)
    }

    constructor ()
      ensures View() == Initial
    {
      state, tasks, handles := map[], [], [];
    }

    /** The locked lookup; `cached` is whether the download cache already has the commit. */
    method GetVersionDataInner(key: Key, cached: bool) returns (r: Option<nat>)
      requires MapOk(View())
      modifies this
      ensures key !in old(state) ==>
        && r == (if cached then Some(|old(tasks)|) else None)
        && tasks == old(tasks) + [Task(key, if cached then Running else Downloading, None, 0)]
      ensures key in old(state) ==>
        var v := old(state)[key];
        && r == (if v.downloaded || old(tasks)[v.task].outcome.Some? then Some(v.task) else None)
        && tasks == old(tasks)
      ensures r == GetResult(old(View()), key, cached)
      ensures View() == StepGet(old(View()), key, cached) && MapOk(View())
    {
      StepKeepsMap(View(), Get(key, cached));
      if key in state {
        var s := state[key];
        if !s.downloaded {
          if tasks[s.task].outcome.Some? {
            state := state[key := s.(downloaded := true)];
          } else {
            return None;
          }
        }
        return Some(s.task);
      }
      state := state[key := VersionState(|tasks|, cached)];
      if cached {
        tasks := tasks + [Task(key, Running, None, 0)];
        r := Some(|tasks| - 1);
      } else {
        tasks := tasks + [Task(key, Downloading, None, 0)];
        r := None;
      }
    }

    /** The end of a spawned task. */
    method RemoveKey(t: nat)
      requires MapOk(View()) && Enabled(View(), Cleanup(t))
      modifies this
      ensures View() == Step(old(View()), Cleanup(t)) && MapOk(View())
      ensures forall k :: k in state <==> k in old(state) && k != old(tasks)[t].key
    {
      StepKeepsMap(View(), Cleanup(t));
      state := state - {tasks[t].key};
      tasks := tasks[t := tasks[t].(stage := Gone)];
    }

    /** A new connection handle. */
    method NewHandle(t: nat) returns (h: nat)
      requires CountsOk(View()) && Enabled(View(), Connect(t))
      modifies this
      ensures View() == Step(old(View()), Connect(t)) && CountsOk(View())
      ensures h < |handles| && handles[h] == Some(t)
    {
      StepKeepsCounts(View(), Connect(t));
      tasks := tasks[t := tasks[t].(clients := tasks[t].clients + 1)];
      h := |handles|;
      handles := handles + [Some(t)];
    }

    method DropHandle(h: nat)
      requires CountsOk(View()) && Enabled(View(), Release(h))
      modifies this
      ensures View() == Step(old(View()), Release(h)) && CountsOk(View())
      ensures old(tasks)[old(handles)[h].value].clients >= 1
    {
      StepKeepsCounts(View(), Release(h));
      LiveDrop(handles, h, handles[h].value);
      var t := handles[h].value;
      tasks := tasks[t := tasks[t].(clients := tasks[t].clients - 1)];
      handles := handles[h := None];
    }
  }

  // ---- The loop that watches one server ------------------------------------------------------------

  const IDLE := 60 * 60
  const ACTIVE := IDLE * 24 * 30 * 12

  /** What ends one wait of the loop. `Counted(None)` is the counter's sender having been dropped. */
  datatype Wake =
    | Line(bound: bool, at: nat)
    | ErrLine(at: nat)
    | Counted(clients: Option<nat>, at: nat)
    | TimerDue(at: nat)
    | Exited(at: nat)

  datatype End = Killed | ByItself | StillRunning

  /** When the timer is due after these wake-ups: the last observed count decides. */
  function Due(start: nat, wakes: seq<Wake>): nat {
    if wakes == [] then start + IDLE
    else
      match wakes[|wakes| - 1]
      case Counted(None, at) => at
      case Counted(Some(n), at) => if n == 0 then at + IDLE else at + ACTIVE
      case _ => Due(start, wakes[..|wakes| - 1])
  }

  ghost predicate Kills(start: nat, wakes: seq<Wake>, k: nat)
    requires k < |wakes|
  {
    wakes[k].TimerDue? && Due(start, wakes[..k]) <= wakes[k].at
  }

  ghost predicate Binds(wakes: seq<Wake>, k: nat)
    requires k < |wakes|
  {
    wakes[k].Line? && wakes[k].bound
  }

  /** Ends at the first wake-up that is the exit or a timer that is due, and reports readiness once,
      at the first line that says the server is bound. */
  method WatchServer(start: nat, wakes: seq<Wake>) returns (end: End, used: nat, ready: Option<nat>)
    ensures used <= |wakes|
    ensures end.StillRunning? <==> used == |wakes| && forall k :: 0 <= k < used ==> !Kills(start, wakes, k) && !wakes[k].Exited?
    ensures end.Killed? ==> used > 0 && Kills(start, wakes, used - 1)
    ensures end.ByItself? ==> used > 0 && wakes[used - 1].Exited?
    ensures forall k :: 0 <= k < used - 1 ==> !Kills(start, wakes, k) && !wakes[k].Exited?
    ensures ready.Some? ==>
      ready.value < used && Binds(wakes, ready.value) && forall k :: 0 <= k < ready.value ==> !Binds(wakes, k)
    ensures ready.None? ==> forall k :: 0 <= k < used ==> !Binds(wakes, k)
  {
    var killTimer := start + IDLE;
    ready := None;
    used := 0;
    while used < |wakes|
      invariant 0 <= used <= |wakes|
      invariant killTimer == Due(start, wakes[..used])
      invariant forall k :: 0 <= k < used ==> !Kills(start, wakes, k) && !wakes[k].Exited?
      invariant ready.Some? ==>
        ready.value < used && Binds(wakes, ready.value) && forall k :: 0 <= k < ready.value ==> !Binds(wakes, k)
      invariant ready.None? ==> forall k :: 0 <= k < used ==> !Binds(wakes, k)
    {
      assert wakes[..used + 1][..used] == wakes[..used];
      match wakes[used] {
        case Line(bound, _) =>
          if bound && ready.None? {
            ready := Some(used);
          }
        case ErrLine(_) =>
        case Counted(clients, at) =>
          killTimer :=
            match clients
            case None => at
            case Some(n) => if n == 0 then at + IDLE else at + ACTIVE;
        case TimerDue(at) =>
          if killTimer <= at {
            return Killed, used + 1, ready;
          }
        case Exited(_) =>
          return ByItself, used + 1, ready;
      }
      used := used + 1;
    }
    end := StillRunning;
  }

  /** Position of the last observation of the counter before `k`. */
  ghost predicate LastCount(wakes: seq<Wake>, j: nat, k: nat) {
    j < k <= |wakes| && wakes[j].Counted? && forall i :: j < i < k ==> !wakes[i].Counted?
  }

  lemma {:induction false} DueSinceLastCount(start: nat, wakes: seq<Wake>, j: nat, k: nat)
    requires LastCount(wakes, j, k)
    ensures Due(start, wakes[..k]) == match wakes[j].clients
      case None => wakes[j].at
      case Some(n) => wakes[j].at + (if n == 0 then IDLE else ACTIVE)
  {
    if j < k - 1 {
      assert wakes[..k][..k - 1] == wakes[..k - 1];
      DueSinceLastCount(start, wakes, j, k - 1);
    }
  }

  lemma {:induction false} DueWithoutCount(start: nat, wakes: seq<Wake>, k: nat)
    requires k <= |wakes| && forall i :: 0 <= i < k ==> !wakes[i].Counted?
    ensures Due(start, wakes[..k]) == start + IDLE
  {
    if k > 0 {
      assert wakes[..k][..k - 1] == wakes[..k - 1];
      DueWithoutCount(start, wakes, k - 1);
    }
  }

  /** When a wake-up of the timer ends the server, by its last observed count: an hour after a count of
      zero, 360 days after one above zero, at once when the counter is gone, and an hour after the start
      without any. */
  lemma KilledExactlyAfterTimeout(start: nat, wakes: seq<Wake>, k: nat)
    requires k < |wakes| && wakes[k].TimerDue?
    ensures (forall i :: 0 <= i < k ==> !wakes[i].Counted?) ==> (Kills(start, wakes, k) <==> wakes[k].at - start >= 3600)
    ensures forall j: nat :: LastCount(wakes, j, k) ==>
      (Kills(start, wakes, k) <==>
       wakes[k].at - wakes[j].at >=
         (if wakes[j].clients.None? then 0 else if wakes[j].clients.value == 0 then 3600 else 31104000))
  {
    if forall i :: 0 <= i < k ==> !wakes[i].Counted? {
      DueWithoutCount(start, wakes, k);
    }
    forall j: nat | LastCount(wakes, j, k)
      ensures Due(start, wakes[..k]) == wakes[j].at +
        (if wakes[j].clients.None? then 0 else if wakes[j].clients.value == 0 then 3600 else 31104000)
    {
      DueSinceLastCount(start, wakes, j, k);
    }
  }

  // ---- Request paths -------------------------------------------------------------------------------

  const COMMIT_HASH_LEN := 40

  predicate IsHexDigit(c: char) {
    '0' <= c <= '9' || 'a' <= c <= 'f' || 'A' <= c <= 'F'
  }

  predicate IsCommitHash(s: string) {
    |s| == COMMIT_HASH_LEN && forall k :: 0 <= k < |s| ==> IsHexDigit(s[k])
  }

  /** Position of the first occurrence, or the length. */
  function FindChar(s: string, c: char): (i: nat)
    ensures i <= |s|
    ensures i < |s| ==> s[i] == c
    ensures forall k :: 0 <= k < i ==> s[k] != c
  {
    if s == "" || s[0] == c then 0 else 1 + FindChar(s[1..], c)
  }

  /** The version and the rest of a path of the form `/<quality>-<commit>/...`. Which quality names
      exist is a parameter. */
  function GetReleaseFromPath(isQuality: string -> bool, path: string): Option<(Key, string)> {
    if path == "" || path[0] != '/' then None
    else
      var rest := path[1..];
      var i := FindChar(rest, '/');
      var head := rest[..i];
      var sep := FindChar(head, '-');
      if sep == |head| then None
      else
        var quality, commit := head[..sep], head[sep + 1..];
        if !IsCommitHash(commit) || !isQuality(quality) then None else Some((Key(quality, commit), rest[i..]))
  }

  ghost predicate Splits(isQuality: string -> bool, path: string, key: Key, rest: string) {
    && path == "/" + key.quality + "-" + key.commit + rest
    && isQuality(key.quality) && |key.commit| == 40
    && (forall k :: 0 <= k < |key.commit| ==>
          '0' <= key.commit[k] <= '9' || 'a' <= key.commit[k] <= 'f' || 'A' <= key.commit[k] <= 'F')
    && (rest == "" || rest[0] == '/')
  }

  lemma Rejoined(path: string, i: nat, sep: nat)
    requires path != "" && path[0] == '/' && sep < i < |path| && path[1 + sep] == '-'
    ensures var rest := path[1..];
      path == "/" + rest[..i][..sep] + "-" + rest[..i][sep + 1..] + rest[i..]
  {
    var rest := path[1..];
    assert rest[..i] == rest[..i][..sep] + "-" + rest[..i][sep + 1..];
    assert rest == rest[..i] + rest[i..];
    assert path == "/" + rest;
  }

  lemma FoundSplits(isQuality: string -> bool, path: string)
    ensures var r := GetReleaseFromPath(isQuality, path);
      r.Some? ==> Splits(isQuality, path, r.value.0, r.value.1)
  {
    if GetReleaseFromPath(isQuality, path).Some? {
      var rest := path[1..];
      var i := FindChar(rest, '/');
      var head := rest[..i];
      var sep := FindChar(head, '-');
      Rejoined(path, i, sep);
    }
  }

  lemma FindCharAt(a: string, c: char, b: string)
    requires c !in a && (b == "" || b[0] == c)
    ensures FindChar(a + b, c) == |a|
  {
    var i, s := FindChar(a + b, c), a + b;
    assert forall k :: 0 <= k < |a| ==> s[k] == a[k];
    assert b != "" ==> s[|a|] == c;
  }

  lemma SplitsFound(isQuality: string -> bool, path: string, key: Key, rest: string)
    requires Splits(isQuality, path, key, rest)
    requires '-' !in key.quality && '/' !in key.quality
    ensures GetReleaseFromPath(isQuality, path) == Some((key, rest))
  {
    var head := key.quality + ("-" + key.commit);
    assert path[1..] == head + rest;
    assert '/' !in head by {
      assert forall k :: 0 <= k < |key.commit| ==> key.commit[k] != '/';
    }
    FindCharAt(head, '/', rest);
    FindCharAt(key.quality, '-', "-" + key.commit);
    assert (head + rest)[..|head|] == head && (head + rest)[|head|..] == rest;
    assert head[..|key.quality|] == key.quality && head[|key.quality| + 1..] == key.commit;
  }

  /** For quality names without separators, a path parses to a version and a rest exactly when it is
      their concatenation, so prefixing a path and parsing it are inverse to each other. */
  lemma PathRoundTrip(isQuality: string -> bool, path: string, key: Key, rest: string)
    requires forall q :: isQuality(q) ==> '-' !in q && '/' !in q
    ensures GetReleaseFromPath(isQuality, path) == Some((key, rest)) <==> Splits(isQuality, path, key, rest)
  {
    FoundSplits(isQuality, path);
    if Splits(isQuality, path, key, rest) {
      SplitsFound(isQuality, path, key, rest);
    }
  }
}
