/** Upgrade exclusion: concurrent `POST /upgrade` requests and the restart tasks they spawn, around one
    atomic flag. A run interleaves the requests between their awaits. */
module Upgrade {
  import opened Basics

  type Commit = string

  /** The answers of the endpoint; only `Started` carries `upgradeStarted: true`. */
  datatype Response = LookupFailed | NotNeeded | AlreadyInProgress | DownloadFailed | Started

  /** `seen` is the running commit the request read first; `Deciding` is about to swap the flag. */
  datatype Request =
    | Looking(seen: Option<Commit>)
    | Deciding(target: Commit)
    | Downloading(target: Commit)
    | Answered(response: Response)

  datatype Stage = Delayed | Killed | Tried | Finished

  /** A spawned kill-and-restart task and the request that spawned it. */
  datatype Restart = Restart(from: nat, target: Commit, stage: Stage)

  datatype State = State(
    inProgress: bool, running: Option<Commit>, requests: seq<Request>, restarts: seq<Restart>)

  /** `Serve` is the server starting or exiting other than through an upgrade. */
  datatype Action =
    | Arrive
    | Lookup(i: nat, latest: Option<Commit>)
    | Swap(i: nat)
    | Download(i: nat, ok: bool)
    | Kill(j: nat)
    | Start(j: nat, started: Option<Commit>)
    | Clear(j: nat)
    | Serve(now: Option<Commit>)

  predicate At(s: State, j: nat, stage: Stage) {
    j < |s.restarts| && s.restarts[j].stage == stage
  }

  predicate Enabled(s: State, a: Action) {
    match a
    case Arrive => true
    case Lookup(i, _) => i < |s.requests| && s.requests[i].Looking?
    case Swap(i) => i < |s.requests| && s.requests[i].Deciding?
    case Download(i, _) => i < |s.requests| && s.requests[i].Downloading?
    case Kill(j) => At(s, j, Delayed)
    case Start(j, _) => At(s, j, Killed)
    case Clear(j) => At(s, j, Tried)
    case Serve(_) => true
  }

  function SetRequest(s: State, i: nat, r: Request): State
    requires i < |s.requests|
  {
    s.(requests := s.requests[i := r])
  }

  function SetStage(s: State, j: nat, stage: Stage): State
    requires j < |s.restarts|
  {
    s.(restarts := s.restarts[j := s.restarts[j].(stage := stage)])
  }

  function Step(s: State, a: Action): State {
    if !Enabled(s, a) then s else
    match a
    case Arrive => s.(requests := s.requests + [Looking(s.running)])
    case Lookup(i, latest) =>
      if latest.None? then SetRequest(s, i, Answered(LookupFailed))
      else if s.requests[i].seen == latest then SetRequest(s, i, Answered(NotNeeded))
      else SetRequest(s, i, Deciding(latest.value))
    case Swap(i) =>
      if s.inProgress then SetRequest(s, i, Answered(AlreadyInProgress))
      else SetRequest(s, i, Downloading(s.requests[i].target)).(inProgress := true)
    case Download(i, ok) =>
      if ok then
        SetRequest(s, i, Answered(Started)).(restarts := s.restarts + [Restart(i, s.requests[i].target, Delayed)])
      else SetRequest(s, i, Answered(DownloadFailed)).(inProgress := false)
    case Kill(j) => SetStage(s, j, Killed).(running := None)
    case Start(j, started) => SetStage(s, j, Tried).(running := started)
    case Clear(j) => SetStage(s, j, Finished).(inProgress := false)
    case Serve(now) => s.(running := now)
  }

  function Exec(s: State, acts: seq<Action>): State
    decreases |acts|
  {
    if acts == [] then s else Exec(Step(s, acts[0]), acts[1..])
  }

  function Initial(running: Option<Commit>): State {
    State(false, running, [], [])
  }

  // ---- One holder of the flag ----------------------------------------------------------------------

  /** Who is between the swap and the clearing store. */
  datatype Holder = ByRequest(i: nat) | ByRestart(j: nat)

  predicate Holds(s: State, h: Holder) {
    match h
    case ByRequest(i) => i < |s.requests| && s.requests[i].Downloading?
    case ByRestart(j) => j < |s.restarts| && !s.restarts[j].stage.Finished?
  }

  /** Only `holder` holds the flag, and the flag says whether there is one. */
  ghost predicate HolderOk(s: State, holder: Option<Holder>) {
    && s.inProgress == holder.Some?
    && (forall h: Holder :: Holds(s, h) <==> holder == Some(h))
  }

  /** Restart tasks and `upgradeStarted: true` answers correspond one to one. */
  ghost predicate AnswersOk(s: State) {
    && (forall j :: 0 <= j < |s.restarts| ==>
          s.restarts[j].from < |s.requests| && s.requests[s.restarts[j].from] == Answered(Started))
    && (forall j, k :: 0 <= j < k < |s.restarts| ==> s.restarts[j].from != s.restarts[k].from)
    && (forall i :: 0 <= i < |s.requests| && s.requests[i] == Answered(Started) ==>
          exists j :: 0 <= j < |s.restarts| && s.restarts[j].from == i)
  }

  ghost function HolderAfter(s: State, a: Action, holder: Option<Holder>): Option<Holder> {
    if !Enabled(s, a) then holder else
    match a
    case Swap(i) => if s.inProgress then holder else Some(ByRequest(i))
    case Download(_, ok) => if ok then Some(ByRestart(|s.restarts|)) else None
    case Clear(_) => None
    case _ => holder
  }

  lemma StepKeepsHolder(s: State, a: Action, holder: Option<Holder>)
    requires HolderOk(s, holder)
    ensures HolderOk(Step(s, a), HolderAfter(s, a, holder))
  {
    var s', holder' := Step(s, a), HolderAfter(s, a, holder);
    if Enabled(s, a) {
      assert a.Download? ==> Holds(s, ByRequest(a.i));
      assert a.Kill? || a.Start? || a.Clear? ==> Holds(s, ByRestart(a.j));
      forall h: Holder ensures Holds(s', h) <==> holder' == Some(h) {
        assert Holds(s, h) <==> holder == Some(h);
      }
    }
  }

  lemma DownloadKeepsAnswers(s: State, i: nat)
    requires AnswersOk(s) && Enabled(s, Download(i, true))
    ensures AnswersOk(Step(s, Download(i, true)))
  {
    var s' := Step(s, Download(i, true));
    forall k | 0 <= k < |s'.requests| && s'.requests[k] == Answered(Started)
      ensures exists j :: 0 <= j < |s'.restarts| && s'.restarts[j].from == k
    {
      if k == i {
        assert s'.restarts[|s.restarts|].from == k;
      } else {
        var j :| 0 <= j < |s.restarts| && s.restarts[j].from == k;
        assert s'.restarts[j] == s.restarts[j];
      }
    }
  }

  lemma StageKeepsAnswers(s: State, j: nat, stage: Stage)
    requires AnswersOk(s) && j < |s.restarts|
    ensures AnswersOk(SetStage(s, j, stage))
  {
    var s' := SetStage(s, j, stage);
    forall k | 0 <= k < |s'.requests| && s'.requests[k] == Answered(Started)
      ensures exists l :: 0 <= l < |s'.restarts| && s'.restarts[l].from == k
    {
      var l :| 0 <= l < |s.restarts| && s.restarts[l].from == k;
      assert s'.restarts[l].from == k;
    }
  }

  /** Changing a request that is not, and does not become, a started one. */
  lemma RequestKeepsAnswers(s: State, i: nat, r: Request)
    requires AnswersOk(s) && i < |s.requests| && !s.requests[i].Answered? && r != Answered(Started)
    ensures AnswersOk(SetRequest(s, i, r))
  {
    var s' := SetRequest(s, i, r);
    forall j | 0 <= j < |s'.restarts|
      ensures s'.restarts[j].from < |s'.requests| && s'.requests[s'.restarts[j].from] == Answered(Started)
    {
      assert s.requests[s.restarts[j].from] == Answered(Started);
    }
    forall k | 0 <= k < |s'.requests| && s'.requests[k] == Answered(Started)
      ensures exists j :: 0 <= j < |s'.restarts| && s'.restarts[j].from == k
    {
      assert s.requests[k] == Answered(Started);
    }
  }

  lemma ArriveKeepsAnswers(s: State)
    requires AnswersOk(s)
    ensures AnswersOk(Step(s, Arrive))
  {
    var s' := Step(s, Arrive);
    forall k | 0 <= k < |s'.requests| && s'.requests[k] == Answered(Started)
      ensures exists j :: 0 <= j < |s'.restarts| && s'.restarts[j].from == k
    {
      assert s.requests[k] == Answered(Started);
    }
  }

  lemma DecisionKeepsAnswers(s: State, a: Action)
    requires AnswersOk(s) && Enabled(s, a) && (a.Lookup? || a.Swap? || (a.Download? && !a.ok))
    ensures AnswersOk(Step(s, a))
  {
    var r := Step(s, a).requests[a.i];
    RequestKeepsAnswers(s, a.i, r);
    DecisionSetsRequest(s, a);
  }

  lemma DecisionSetsRequest(s: State, a: Action)
    requires Enabled(s, a) && (a.Lookup? || a.Swap? || (a.Download? && !a.ok))
    ensures var s' := Step(s, a);
      && a.i < |s'.requests| && s'.requests[a.i] != Answered(Started)
      && s'.requests == SetRequest(s, a.i, s'.requests[a.i]).requests && s'.restarts == s.restarts
  {
  }

  lemma StepKeepsAnswers(s: State, a: Action)
    requires AnswersOk(s)
    ensures AnswersOk(Step(s, a))
  {
    if !Enabled(s, a) {
    } else if a.Arrive? {
      ArriveKeepsAnswers(s);
    } else if a.Download? && a.ok {
      DownloadKeepsAnswers(s, a.i);
    } else if a.Lookup? || a.Swap? || a.Download? {
      DecisionKeepsAnswers(s, a);
    } else if !a.Serve? {
      StageKeepsAnswers(s, a.j, Step(s, a).restarts[a.j].stage);
    }
  }

  lemma {:induction false} RunKeeps(s: State, acts: seq<Action>, holder: Option<Holder>) returns (holder': Option<Holder>)
    requires HolderOk(s, holder) && AnswersOk(s)
    ensures HolderOk(Exec(s, acts), holder') && AnswersOk(Exec(s, acts))
    decreases |acts|
  {
    holder' := holder;
    if acts != [] {
      StepKeepsHolder(s, acts[0], holder);
      StepKeepsAnswers(s, acts[0]);
      holder' := RunKeeps(Step(s, acts[0]), acts[1..], HolderAfter(s, acts[0], holder));
    }
  }

  /** In every run at most one request or restart is between the swap and the clearing store, and the
      flag is set exactly while there is one. */
  lemma OneUpgradeInEveryRun(running: Option<Commit>, acts: seq<Action>)
    ensures var s := Exec(Initial(running), acts);
      && (forall h, k :: Holds(s, h) && Holds(s, k) ==> h == k)
      && (s.inProgress <==> exists h :: Holds(s, h))
  {
    var holder := RunKeeps(Initial(running), acts, None);
    var s := Exec(Initial(running), acts);
    if s.inProgress {
      assert Holds(s, holder.value);
    }
  }

  /** In every run the `upgradeStarted: true` answers are exactly those with a restart task of their own. */
  lemma StartedMeansScheduledInEveryRun(running: Option<Commit>, acts: seq<Action>)
    ensures AnswersOk(Exec(Initial(running), acts))
  {
    var _ := RunKeeps(Initial(running), acts, None);
  }

  /** A server is only ever killed by the one pending upgrade, which answered that it started. */
  lemma KillsAreAnnounced(running: Option<Commit>, acts: seq<Action>, j: nat)
    requires Enabled(Exec(Initial(running), acts), Kill(j))
    ensures var s := Exec(Initial(running), acts);
      && s.inProgress
      && s.restarts[j].from < |s.requests| && s.requests[s.restarts[j].from] == Answered(Started)
      && (forall i :: 0 <= i < |s.requests| ==> !s.requests[i].Downloading?)
      && (forall k :: 0 <= k < |s.restarts| && k != j ==> s.restarts[k].stage.Finished?)
  {
    var holder := RunKeeps(Initial(running), acts, None);
    var s := Exec(Initial(running), acts);
    assert Holds(s, ByRestart(j));
    forall i | 0 <= i < |s.requests| ensures !s.requests[i].Downloading? {
      assert Holds(s, ByRequest(i)) <==> s.requests[i].Downloading?;
    }
    forall k | 0 <= k < |s.restarts| && k != j ensures s.restarts[k].stage.Finished? {
      assert Holds(s, ByRestart(k)) <==> !s.restarts[k].stage.Finished?;
    }
  }

  lemma ExecCons(s: State, a: Action, rest: seq<Action>)
    ensures Exec(s, [a] + rest) == Exec(Step(s, a), rest)
  {
    assert ([a] + rest)[1..] == rest;
  }

  function TwoRequests(latest: Commit): seq<Action> {
    [Arrive] + ([Arrive] + ([Lookup(0, Some(latest))] + ([Lookup(1, Some(latest))] + ([Swap(0)] + ([Download(0, true)] + [])))))
  }

  function FirstRestart(latest: Commit): seq<Action> {
    [Kill(0)] + ([Start(0, Some(latest))] + ([Clear(0)] + ([Swap(1)] + ([Download(1, true)] + []))))
  }

  lemma BothReadTheOldCommit(before: Commit, latest: Commit)
    requires before != latest
    ensures Exec(Initial(Some(before)), TwoRequests(latest)) ==
      State(true, Some(before), [Answered(Started), Deciding(latest)], [Restart(0, latest, Delayed)])
  {
    var s0 := Initial(Some(before));
    var s1 := Step(s0, Arrive);
    var s2 := Step(s1, Arrive);
    var s3 := Step(s2, Lookup(0, Some(latest)));
    var s4 := Step(s3, Lookup(1, Some(latest)));
    var s5 := Step(s4, Swap(0));
    ExecCons(s0, Arrive, TwoRequests(latest)[1..]);
    ExecCons(s1, Arrive, TwoRequests(latest)[2..]);
    ExecCons(s2, Lookup(0, Some(latest)), TwoRequests(latest)[3..]);
    ExecCons(s3, Lookup(1, Some(latest)), TwoRequests(latest)[4..]);
    ExecCons(s4, Swap(0), TwoRequests(latest)[5..]);
    ExecCons(s5, Download(0, true), []);
  }

  /** Two requests that both read the old commit restart the server twice when the second one swaps
      the flag after the first restart cleared it: the server killed then is the upgraded one. */
  lemma StaleRequestRestartsAgain(before: Commit, latest: Commit)
    requires before != latest
    ensures var s := Exec(Exec(Initial(Some(before)), TwoRequests(latest)), FirstRestart(latest));
      Enabled(s, Kill(1)) && s.running == Some(latest) && s.restarts[1].target == latest
  {
    BothReadTheOldCommit(before, latest);
    var s0 := State(true, Some(before), [Answered(Started), Deciding(latest)], [Restart(0, latest, Delayed)]);
    var s1 := Step(s0, Kill(0));
    var s2 := Step(s1, Start(0, Some(latest)));
    var s3 := Step(s2, Clear(0));
    var s4 := Step(s3, Swap(1));
    ExecCons(s0, Kill(0), FirstRestart(latest)[1..]);
    ExecCons(s1, Start(0, Some(latest)), FirstRestart(latest)[2..]);
    ExecCons(s2, Clear(0), FirstRestart(latest)[3..]);
    ExecCons(s3, Swap(1), FirstRestart(latest)[4..]);
    ExecCons(s4, Download(1, true), []);
  }

  /** No step of the run is the server starting or exiting by other means. */
  predicate NoServe(acts: seq<Action>) {
    forall k :: 0 <= k < |acts| ==> !acts[k].Serve?
  }

  /** Request `i` holds the flag while it downloads, or through its restart that has not killed yet. */
  ghost predicate Pending(s: State, i: nat, target: Commit) {
    && i < |s.requests|
    && (s.requests[i] == Downloading(target) ||
        exists j :: 0 <= j < |s.restarts| && s.restarts[j] == Restart(i, target, Delayed))
  }

  /** Request `i` is answered and no restart of its is still about to kill. */
  ghost predicate Over(s: State, i: nat) {
    && i < |s.requests| && s.requests[i].Answered?
    && forall j :: 0 <= j < |s.restarts| && s.restarts[j].from == i ==> !s.restarts[j].stage.Delayed?
  }

  lemma OnlyHolder(s: State, holder: Option<Holder>, h: Holder)
    requires HolderOk(s, holder) && Holds(s, h)
    ensures forall i :: 0 <= i < |s.requests| && s.requests[i].Downloading? ==> h == ByRequest(i)
    ensures forall j :: 0 <= j < |s.restarts| && !s.restarts[j].stage.Finished? ==> h == ByRestart(j)
  {
    forall i | 0 <= i < |s.requests| && s.requests[i].Downloading? ensures h == ByRequest(i) {
      assert Holds(s, ByRequest(i));
    }
    forall j | 0 <= j < |s.restarts| && !s.restarts[j].stage.Finished? ensures h == ByRestart(j) {
      assert Holds(s, ByRestart(j));
    }
  }

  lemma DownloadingStep(s: State, a: Action, i: nat, target: Commit)
    requires i < |s.requests| && s.requests[i] == Downloading(target) && AnswersOk(s) && !a.Serve?
    requires forall j :: 0 <= j < |s.restarts| ==> s.restarts[j].stage.Finished?
    ensures (Pending(Step(s, a), i, target) && Step(s, a).running == s.running) || Over(Step(s, a), i)
  {
    var s' := Step(s, a);
    if a == Download(i, true) {
      assert s'.restarts[|s.restarts|] == Restart(i, target, Delayed);
    }
  }

  lemma DelayedStep(s: State, a: Action, i: nat, target: Commit, j: nat)
    requires j < |s.restarts| && s.restarts[j] == Restart(i, target, Delayed) && AnswersOk(s) && !a.Serve?
    requires forall k :: 0 <= k < |s.restarts| && k != j ==> s.restarts[k].stage.Finished?
    requires forall k :: 0 <= k < |s.requests| ==> !s.requests[k].Downloading?
    ensures (Pending(Step(s, a), i, target) && Step(s, a).running == s.running) || Over(Step(s, a), i)
  {
    var s' := Step(s, a);
    if !(Enabled(s, a) && a == Kill(j)) {
      assert s'.restarts[j] == Restart(i, target, Delayed);
    }
  }

  /** While a request's upgrade is pending nothing but the server's own doing changes what runs. */
  lemma PendingStep(s: State, a: Action, i: nat, target: Commit, holder: Option<Holder>)
    requires HolderOk(s, holder) && AnswersOk(s) && Pending(s, i, target) && !a.Serve?
    ensures (Pending(Step(s, a), i, target) && Step(s, a).running == s.running) || Over(Step(s, a), i)
  {
    if s.requests[i] == Downloading(target) {
      OnlyHolder(s, holder, ByRequest(i));
      DownloadingStep(s, a, i, target);
    } else {
      var j :| 0 <= j < |s.restarts| && s.restarts[j] == Restart(i, target, Delayed);
      OnlyHolder(s, holder, ByRestart(j));
      DelayedStep(s, a, i, target, j);
    }
  }

  lemma OverStep(s: State, a: Action, i: nat)
    requires Over(s, i)
    ensures Over(Step(s, a), i)
  {
  }

  lemma {:induction false} PendingRun(s: State, acts: seq<Action>, i: nat, target: Commit, holder: Option<Holder>)
    requires HolderOk(s, holder) && AnswersOk(s) && NoServe(acts)
    requires Pending(s, i, target) || Over(s, i)
    ensures (Pending(s, i, target) && Pending(Exec(s, acts), i, target) && Exec(s, acts).running == s.running)
      || Over(Exec(s, acts), i)
    decreases |acts|
  {
    if acts != [] {
      var s', holder' := Step(s, acts[0]), HolderAfter(s, acts[0], holder);
      StepKeepsHolder(s, acts[0], holder);
      StepKeepsAnswers(s, acts[0]);
      if Over(s, i) {
        OverStep(s, acts[0], i);
      } else {
        PendingStep(s, acts[0], i, target, holder);
      }
      PendingRun(s', acts[1..], i, target, holder');
    }
  }

  lemma KilledIsPending(s: State, i: nat, target: Commit, j: nat)
    requires AnswersOk(s) && At(s, j, Delayed) && s.restarts[j].from == i
    requires Pending(s, i, target) || Over(s, i)
    ensures !Over(s, i) && s.restarts[j].target == target
  {
    assert s.requests[i] == Answered(Started);
    var k :| 0 <= k < |s.restarts| && s.restarts[k] == Restart(i, target, Delayed);
    assert k == j;
  }

  /** In every run: between a request's winning swap and the kill of its restart, unless the server
      started or exited by other means, that kill hits a server that already runs the target exactly
      when it ran the target at the swap. */
  lemma KillRedundantIff(running: Option<Commit>, before: seq<Action>, i: nat, after: seq<Action>, j: nat)
    requires var s := Exec(Initial(running), before); Enabled(s, Swap(i)) && !s.inProgress
    requires NoServe(after)
    requires var s' := Exec(Step(Exec(Initial(running), before), Swap(i)), after);
      Enabled(s', Kill(j)) && s'.restarts[j].from == i
    ensures var s := Exec(Initial(running), before);
      var s' := Exec(Step(s, Swap(i)), after);
      && s'.restarts[j].target == s.requests[i].target
      && (s'.running == Some(s'.restarts[j].target) <==> s.running == Some(s.requests[i].target))
  {
    var holder := RunKeeps(Initial(running), before, None);
    var s := Exec(Initial(running), before);
    var target := s.requests[i].target;
    StepKeepsHolder(s, Swap(i), holder);
    StepKeepsAnswers(s, Swap(i));
    var won := Step(s, Swap(i));
    PendingRun(won, after, i, target, HolderAfter(s, Swap(i), holder));
    var _ := RunKeeps(won, after, HolderAfter(s, Swap(i), holder));
    KilledIsPending(Exec(won, after), i, target, j);
  }

  // ---- What the actions taken say ------------------------------------------------------------------

  lemma {:induction false} ExecSnoc(s: State, acts: seq<Action>, a: Action)
    ensures Exec(s, acts + [a]) == Step(Exec(s, acts), a)
    decreases |acts|
  {
    if acts == [] {
      assert [a][1..] == [];
    } else {
      assert (acts + [a])[1..] == acts[1..] + [a];
      ExecSnoc(Step(s, acts[0]), acts[1..], a);
    }
  }

  ghost function After(running: Option<Commit>, acts: seq<Action>): State {
    Exec(Initial(running), acts)
  }

  /** The action was taken at a moment at which it could be. */
  ghost predicate Did(running: Option<Commit>, acts: seq<Action>, a: Action) {
    acts != [] &&
    var front := acts[..|acts| - 1];
    Did(running, front, a) || (acts[|acts| - 1] == a && Enabled(After(running, front), a))
  }

  /** What runs: a kill ends it, and the last start or other change says what does. */
  ghost function Runs(running: Option<Commit>, acts: seq<Action>): Option<Commit> {
    if acts == [] then running
    else
      var front, a := acts[..|acts| - 1], acts[|acts| - 1];
      if a.Serve? then a.now
      else if a.Kill? && Enabled(After(running, front), a) then None
      else if a.Start? && Enabled(After(running, front), a) then a.started
      else Runs(running, front)
  }

  /** What ran as each request arrived. */
  ghost function Arrivals(running: Option<Commit>, acts: seq<Action>): seq<Option<Commit>> {
    if acts == [] then []
    else
      var front := acts[..|acts| - 1];
      if acts[|acts| - 1].Arrive? then Arrivals(running, front) + [Runs(running, front)] else Arrivals(running, front)
  }

  /** What the lookup of the latest release gave the request, once it has. */
  ghost function LookupOf(running: Option<Commit>, acts: seq<Action>, i: nat): Option<Option<Commit>> {
    if acts == [] then None
    else
      var front, a := acts[..|acts| - 1], acts[|acts| - 1];
      if a.Lookup? && a.i == i && Enabled(After(running, front), a) then Some(a.latest) else LookupOf(running, front, i)
  }

  /** The request swapped the flag while another one held it. */
  ghost predicate Refused(running: Option<Commit>, acts: seq<Action>, i: nat) {
    acts != [] &&
    var front, a := acts[..|acts| - 1], acts[|acts| - 1];
    Refused(running, front, i) || (a == Swap(i) && Enabled(After(running, front), a) && After(running, front).inProgress)
  }

  /** The requests whose download succeeded, in order: the j-th one has restart j. */
  ghost function Upgrades(running: Option<Commit>, acts: seq<Action>): seq<nat> {
    if acts == [] then []
    else
      var front, a := acts[..|acts| - 1], acts[|acts| - 1];
      if a.Download? && a.ok && Enabled(After(running, front), a) then Upgrades(running, front) + [a.i]
      else Upgrades(running, front)
  }

  /** A release other than the one the request saw running was found. */
  ghost predicate Needed(running: Option<Commit>, acts: seq<Action>, i: nat)
    requires i < |Arrivals(running, acts)|
  {
    var found := LookupOf(running, acts, i);
    found.Some? && found.value.Some? && found.value != Arrivals(running, acts)[i]
  }

  ghost predicate RequestAsDone(running: Option<Commit>, acts: seq<Action>, i: nat, r: Request)
    requires i < |Arrivals(running, acts)|
  {
    var seen, found, needed := Arrivals(running, acts)[i], LookupOf(running, acts, i), Needed(running, acts, i);
    var failed, ended := Did(running, acts, Download(i, false)), Did(running, acts, Download(i, true));
    var swapped, refused := Did(running, acts, Swap(i)), Refused(running, acts, i);
    && (r.Looking? <==> found.None?) && (r.Looking? ==> r.seen == seen)
    && (r == Answered(LookupFailed) <==> found == Some(None))
    && (r == Answered(NotNeeded) <==> found.Some? && found.value.Some? && !needed)
    && (r.Deciding? <==> needed && !swapped)
    && (r == Answered(AlreadyInProgress) <==> refused)
    && (r.Downloading? <==> swapped && !refused && !failed && !ended)
    && (r == Answered(DownloadFailed) <==> failed)
    && (r == Answered(Started) <==> ended)
    && (swapped ==> needed)
    && (r.Deciding? || r.Downloading? ==> found == Some(Some(r.target)))
  }

  /** No such request has arrived. */
  ghost predicate Unmade(running: Option<Commit>, acts: seq<Action>, i: nat) {
    && LookupOf(running, acts, i).None? && !Did(running, acts, Swap(i)) && !Refused(running, acts, i)
    && !Did(running, acts, Download(i, true)) && !Did(running, acts, Download(i, false))
  }

  lemma Snoc(running: Option<Commit>, acts: seq<Action>, b: Action, i: nat)
    ensures var s := After(running, acts); var all := acts + [b];
      && After(running, all) == Step(s, b)
      && (forall a :: Did(running, all, a) <==> Did(running, acts, a) || (a == b && Enabled(s, a)))
      && Arrivals(running, all) == Arrivals(running, acts) + (if b.Arrive? then [Runs(running, acts)] else [])
      && LookupOf(running, all, i) ==
        (if b.Lookup? && b.i == i && Enabled(s, b) then Some(b.latest) else LookupOf(running, acts, i))
      && (Refused(running, all, i) <==> Refused(running, acts, i) || (b == Swap(i) && Enabled(s, b) && s.inProgress))
      && Upgrades(running, all) == Upgrades(running, acts) + (if b.Download? && b.ok && Enabled(s, b) then [b.i] else [])
  {
    assert (acts + [b])[..|acts + [b]| - 1] == acts;
    ExecSnoc(Initial(running), acts, b);
  }

  lemma {:induction false} RunningInEveryRun(running: Option<Commit>, acts: seq<Action>)
    ensures After(running, acts).running == Runs(running, acts)
  {
    if acts != [] {
      var front, b := acts[..|acts| - 1], acts[|acts| - 1];
      assert acts == front + [b];
      ExecSnoc(Initial(running), front, b);
      RunningInEveryRun(running, front);
    }
  }

  lemma OtherStep(running: Option<Commit>, acts: seq<Action>, b: Action, i: nat)
    requires var s := After(running, acts);
      i < |s.requests| == |Arrivals(running, acts)| && RequestAsDone(running, acts, i, s.requests[i])
    requires !((b.Lookup? || b.Swap? || b.Download?) && b.i == i)
    ensures i < |Arrivals(running, acts + [b])| && i < |After(running, acts + [b]).requests|
    ensures RequestAsDone(running, acts + [b], i, After(running, acts + [b]).requests[i])
  {
    Snoc(running, acts, b, i);
    assert After(running, acts + [b]).requests[i] == After(running, acts).requests[i];
    assert Arrivals(running, acts + [b])[i] == Arrivals(running, acts)[i];
  }

  lemma OwnStep(running: Option<Commit>, acts: seq<Action>, b: Action, i: nat)
    requires var s := After(running, acts);
      i < |s.requests| == |Arrivals(running, acts)| && RequestAsDone(running, acts, i, s.requests[i])
    requires (b.Lookup? || b.Swap? || b.Download?) && b.i == i
    ensures i < |Arrivals(running, acts + [b])| && i < |After(running, acts + [b]).requests|
    ensures RequestAsDone(running, acts + [b], i, After(running, acts + [b]).requests[i])
  {
    Snoc(running, acts, b, i);
    assert Arrivals(running, acts + [b]) == Arrivals(running, acts);
  }

  lemma ArrivedStep(running: Option<Commit>, acts: seq<Action>, i: nat)
    requires i == |After(running, acts).requests| == |Arrivals(running, acts)| && Unmade(running, acts, i)
    requires After(running, acts).running == Runs(running, acts)
    ensures |Arrivals(running, acts + [Arrive])| == i + 1 == |After(running, acts + [Arrive]).requests|
    ensures RequestAsDone(running, acts + [Arrive], i, After(running, acts + [Arrive]).requests[i])
  {
    Snoc(running, acts, Arrive, i);
    assert Unmade(running, acts + [Arrive], i);
    assert After(running, acts + [Arrive]).requests[i] == Looking(Runs(running, acts));
    assert Arrivals(running, acts + [Arrive])[i] == Runs(running, acts);
  }

  lemma UnmadeStep(running: Option<Commit>, acts: seq<Action>, b: Action, i: nat)
    requires i >= |After(running, acts).requests| == |Arrivals(running, acts)| && Unmade(running, acts, i)
    ensures |Arrivals(running, acts + [b])| == |After(running, acts + [b]).requests|
    ensures Unmade(running, acts + [b], i)
  {
    Snoc(running, acts, b, i);
    assert b.Lookup? || b.Swap? || b.Download? ==> !(b.i == i && Enabled(After(running, acts), b));
  }

  lemma {:induction false} RequestInEveryRun(running: Option<Commit>, acts: seq<Action>, i: nat)
    ensures var s := After(running, acts);
      && |s.requests| == |Arrivals(running, acts)|
      && if i < |s.requests| then RequestAsDone(running, acts, i, s.requests[i]) else Unmade(running, acts, i)
  {
    if acts != [] {
      var front, b := acts[..|acts| - 1], acts[|acts| - 1];
      assert acts == front + [b];
      var n := |After(running, front).requests|;
      RunningInEveryRun(running, front);
      RequestInEveryRun(running, front, i);
      RequestInEveryRun(running, front, n);
      UnmadeStep(running, front, b, n);
      if i >= n {
        UnmadeStep(running, front, b, i);
        if b.Arrive? && i == n {
          ArrivedStep(running, front, i);
        }
      } else if (b.Lookup? || b.Swap? || b.Download?) && b.i == i {
        OwnStep(running, front, b, i);
      } else {
        OtherStep(running, front, b, i);
      }
    }
  }

  /** How each request is answered in every run, said by the actions taken: no upgrade is needed exactly
      when the release found is what ran as the request arrived. */
  lemma AnswersInEveryRun(running: Option<Commit>, acts: seq<Action>, i: nat)
    requires i < |Arrivals(running, acts)|
    ensures |After(running, acts).requests| == |Arrivals(running, acts)|
    ensures var r, seen, found := After(running, acts).requests[i], Arrivals(running, acts)[i], LookupOf(running, acts, i);
      && (r.Looking? <==> found.None?)
      && (r == Answered(LookupFailed) <==> found == Some(None))
      && (r == Answered(NotNeeded) <==> found == Some(seen) && seen.Some?)
      && (r == Answered(AlreadyInProgress) <==> Refused(running, acts, i))
      && (r == Answered(DownloadFailed) <==> Did(running, acts, Download(i, false)))
      && (r == Answered(Started) <==> Did(running, acts, Download(i, true)))
      && (Did(running, acts, Swap(i)) ==> found.Some? && found.value.Some? && found.value != seen)
  {
    RequestInEveryRun(running, acts, i);
  }

  /** The restart has tried to start the server again. */
  ghost predicate Revived(running: Option<Commit>, acts: seq<Action>, j: nat) {
    acts != [] &&
    var front, a := acts[..|acts| - 1], acts[|acts| - 1];
    Revived(running, front, j) || (a.Start? && a.j == j && Enabled(After(running, front), a))
  }

  ghost predicate RestartAsDone(running: Option<Commit>, acts: seq<Action>, j: nat, r: Restart)
    requires j < |Upgrades(running, acts)|
  {
    && r.from == Upgrades(running, acts)[j] && r.from < |Arrivals(running, acts)|
    && LookupOf(running, acts, r.from) == Some(Some(r.target)) && Arrivals(running, acts)[r.from] != Some(r.target)
    && (r.stage.Delayed? <==> !Did(running, acts, Kill(j)))
    && (r.stage.Killed? <==> Did(running, acts, Kill(j)) && !Revived(running, acts, j))
    && (r.stage.Tried? <==> Revived(running, acts, j) && !Did(running, acts, Clear(j)))
    && (r.stage.Finished? <==> Did(running, acts, Clear(j)))
    && (Revived(running, acts, j) ==> Did(running, acts, Kill(j)))
  }

  ghost predicate Unscheduled(running: Option<Commit>, acts: seq<Action>, j: nat) {
    !Did(running, acts, Kill(j)) && !Revived(running, acts, j) && !Did(running, acts, Clear(j))
  }

  /** A restart keeps its request and target, and changes its stage by its own steps alone. */
  lemma RestartMoves(s: State, b: Action, j: nat)
    requires j < |s.restarts|
    ensures j < |Step(s, b).restarts|
    ensures var r, r' := s.restarts[j], Step(s, b).restarts[j];
      && r'.from == r.from && r'.target == r.target
      && r'.stage ==
         (if !Enabled(s, b) then r.stage
          else if b == Kill(j) then Killed
          else if b.Start? && b.j == j then Tried
          else if b == Clear(j) then Finished
          else r.stage)
  {
  }

  lemma RestartStep(running: Option<Commit>, acts: seq<Action>, b: Action, j: nat)
    requires var s := After(running, acts);
      && j < |s.restarts| == |Upgrades(running, acts)| && RestartAsDone(running, acts, j, s.restarts[j])
      && |s.requests| == |Arrivals(running, acts)| && s.requests[s.restarts[j].from].Answered?
    ensures j < |Upgrades(running, acts + [b])| && j < |After(running, acts + [b]).restarts|
    ensures RestartAsDone(running, acts + [b], j, After(running, acts + [b]).restarts[j])
  {
    var r := After(running, acts).restarts[j];
    Snoc(running, acts, b, r.from);
    RevivedSnoc(running, acts, b, j);
    RestartMoves(After(running, acts), b, j);
    assert Upgrades(running, acts + [b])[j] == Upgrades(running, acts)[j];
    assert Arrivals(running, acts + [b])[r.from] == Arrivals(running, acts)[r.from];
  }

  lemma RevivedSnoc(running: Option<Commit>, acts: seq<Action>, b: Action, j: nat)
    ensures Revived(running, acts + [b], j) <==>
      Revived(running, acts, j) || (b.Start? && b.j == j && Enabled(After(running, acts), b))
  {
    assert (acts + [b])[..|acts + [b]| - 1] == acts;
  }

  lemma ScheduleStep(running: Option<Commit>, acts: seq<Action>, b: Action, j: nat)
    requires var s := After(running, acts);
      j >= |s.restarts| == |Upgrades(running, acts)| && Unscheduled(running, acts, j)
    ensures |Upgrades(running, acts + [b])| == |After(running, acts + [b]).restarts|
    ensures if j < |Upgrades(running, acts + [b])|
      then RestartAsDone(running, acts + [b], j, After(running, acts + [b]).restarts[j])
      else Unscheduled(running, acts + [b], j)
  {
    var i := if b.Download? then b.i else 0;
    RequestInEveryRun(running, acts, i);
    RequestInEveryRun(running, acts + [b], i);
    Snoc(running, acts, b, i);
    RevivedSnoc(running, acts, b, j);
  }

  /** Each restart in every run, said by the actions taken: it belongs to the request whose download
      succeeded, its target is the release that request found, and that is not what ran as it arrived. */
  lemma {:induction false} RestartsInEveryRun(running: Option<Commit>, acts: seq<Action>, j: nat)
    ensures var s := After(running, acts);
      && |s.restarts| == |Upgrades(running, acts)|
      && if j < |s.restarts| then RestartAsDone(running, acts, j, s.restarts[j]) else Unscheduled(running, acts, j)
  {
    if acts != [] {
      var front, b := acts[..|acts| - 1], acts[|acts| - 1];
      assert acts == front + [b];
      var n := |After(running, front).restarts|;
      RestartsInEveryRun(running, front, j);
      RestartsInEveryRun(running, front, n);
      ScheduleStep(running, front, b, n);
      if j < n {
        var _ := RunKeeps(Initial(running), front, None);
        RequestInEveryRun(running, front, 0);
        RestartStep(running, front, b, j);
      } else {
        ScheduleStep(running, front, b, j);
      }
    }
  }

  /** No upgrade in any run replaces a server by the release that its request saw running. */
  lemma NoRestartOfAnUpToDateServer(running: Option<Commit>, acts: seq<Action>, j: nat)
    requires Enabled(After(running, acts), Kill(j))
    ensures j < |Upgrades(running, acts)| && Upgrades(running, acts)[j] < |Arrivals(running, acts)|
    ensures var i := Upgrades(running, acts)[j];
      && Did(running, acts, Download(i, true)) && !Did(running, acts, Kill(j))
      && var found := LookupOf(running, acts, i);
        found.Some? && found.value.Some? && found.value != Arrivals(running, acts)[i]
  {
    RestartsInEveryRun(running, acts, j);
    var i := Upgrades(running, acts)[j];
    assert After(running, acts).requests[i] == Answered(Started) by {
      StartedMeansScheduledInEveryRun(running, acts);
    }
    AnswersInEveryRun(running, acts, i);
  }

  /** Which steps can be taken next, said by the actions taken before. */
  lemma GuardsInEveryRun(running: Option<Commit>, acts: seq<Action>, i: nat, j: nat)
    requires i < |Arrivals(running, acts)| && j < |Upgrades(running, acts)|
    ensures var s, found := After(running, acts), LookupOf(running, acts, i);
      && (forall latest :: Enabled(s, Lookup(i, latest)) <==> found.None?)
      && (Enabled(s, Swap(i)) <==>
          found.Some? && found.value.Some? && found.value != Arrivals(running, acts)[i] && !Did(running, acts, Swap(i)))
      && (forall ok :: Enabled(s, Download(i, ok)) <==>
            && Did(running, acts, Swap(i)) && !Refused(running, acts, i)
            && !Did(running, acts, Download(i, true)) && !Did(running, acts, Download(i, false)))
      && (Enabled(s, Kill(j)) <==> !Did(running, acts, Kill(j)))
      && (forall started :: Enabled(s, Start(j, started)) <==> Did(running, acts, Kill(j)) && !Revived(running, acts, j))
      && (Enabled(s, Clear(j)) <==> Revived(running, acts, j) && !Did(running, acts, Clear(j)))
  {
    RequestInEveryRun(running, acts, i);
    RestartsInEveryRun(running, acts, j);
  }

  // ---- The manager ---------------------------------------------------------------------------------

  class AgentHostManager {
    var upgradeInProgress: bool
    var running: Option<Commit>
    var requests: seq<Request>
    var restarts: seq<Restart>

    ghost function View(): State
      reads this
    {
      State(upgradeInProgress, running, requests, restarts)
    }

    constructor ()
      ensures View() == Initial(None)
    {
      upgradeInProgress, running, requests, restarts := false, None, [], [];
    }

    /** A request reads the running commit first. */
    method ReadRunning() returns (i: nat)
      modifies this
      ensures View() == Step(old(View()), Arrive)
      ensures i == |old(requests)| && requests == old(requests) + [Looking(old(running))] && running == old(running)
    {
      i := |requests|;
      requests := requests + [Looking(running)];
    }

    /** With the latest release looked up, the request decides whether an upgrade is needed. */
    method DecideOnRelease(i: nat, latest: Option<Commit>)
      requires Enabled(View(), Lookup(i, latest))
      modifies this
      ensures View() == Step(old(View()), Lookup(i, latest))
      ensures requests[i].Answered? <==> latest.None? || latest == old(requests)[i].seen
      ensures requests[i].Answered? ==> requests[i].response == if latest.None? then LookupFailed else NotNeeded
      ensures requests[i].Deciding? ==> requests[i].target == latest.value
    {
      match latest {
        case None =>
          requests := requests[i := Answered(LookupFailed)];
        case Some(commit) =>
          var upgradeNeeded :=
            match requests[i].seen
            case Some(c) => c != commit
            case None => true;
          requests := requests[i := if upgradeNeeded then Deciding(commit) else Answered(NotNeeded)];
      }
    }

    /** The atomic swap of one request: only the caller that flipped the flag goes on to download. */
    method SwapFlag(i: nat, ghost holder: Option<Holder>)
      requires Enabled(View(), Swap(i)) && HolderOk(View(), holder)
      modifies this
      ensures View() == Step(old(View()), Swap(i))
      ensures if holder.None? then requests[i] == Downloading(old(requests)[i].target)
        else requests[i] == Answered(AlreadyInProgress)
      ensures upgradeInProgress
      ensures HolderOk(View(), HolderAfter(old(View()), Swap(i), holder))
    {
      StepKeepsHolder(View(), Swap(i), holder);
      if upgradeInProgress {
        requests := requests[i := Answered(AlreadyInProgress)];
      } else {
        upgradeInProgress := true;
        requests := requests[i := Downloading(requests[i].target)];
      }
    }

    /** After the awaited download: clear the flag on failure, hand it to a restart task otherwise. */
    method FinishDownload(i: nat, ok: bool, ghost holder: Option<Holder>)
      requires Enabled(View(), Download(i, ok)) && HolderOk(View(), holder) && AnswersOk(View())
      modifies this
      ensures View() == Step(old(View()), Download(i, ok)) && AnswersOk(View())
      ensures upgradeInProgress <==> ok
      ensures requests[i] == Answered(if ok then Started else DownloadFailed)
      ensures restarts == old(restarts) + (if ok then [Restart(i, old(requests)[i].target, Delayed)] else [])
      ensures HolderOk(View(), HolderAfter(old(View()), Download(i, ok), holder))
    {
      StepKeepsHolder(View(), Download(i, ok), holder);
      StepKeepsAnswers(View(), Download(i, ok));
      assert Holds(View(), ByRequest(i));
      if !ok {
        upgradeInProgress := false;
        requests := requests[i := Answered(DownloadFailed)];
      } else {
        restarts := restarts + [Restart(i, requests[i].target, Delayed)];
        requests := requests[i := Answered(Started)];
      }
    }

    /** The spawned task after its delay, with no other upgrade step in between. */
    method KillAndRestart(j: nat, started: Option<Commit>, ghost holder: Option<Holder>)
      requires Enabled(View(), Kill(j)) && HolderOk(View(), holder)
      modifies this
      ensures View() == Step(Step(Step(old(View()), Kill(j)), Start(j, started)), Clear(j))
      ensures HolderOk(View(), None) && running == started
    {
      ghost var s := View();
      StepKeepsHolder(s, Kill(j), holder);
      StepKeepsHolder(Step(s, Kill(j)), Start(j, started), holder);
      StepKeepsHolder(Step(Step(s, Kill(j)), Start(j, started)), Clear(j), holder);
      restarts := restarts[j := restarts[j].(stage := Killed)];
      running := None;
      restarts := restarts[j := restarts[j].(stage := Tried)];
      running := started;
      restarts := restarts[j := restarts[j].(stage := Finished)];
      upgradeInProgress := false;
    }
  }
}
