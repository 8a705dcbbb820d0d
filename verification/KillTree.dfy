/** The non-Windows `kill_tree` walk: breadth-first over child lookups that may fail. */
module KillTree {
  import opened Basics

  type Pid = nat
  type LookupError = string
  type Lookup = Pid -> Result<seq<Pid>, LookupError>

  /** The children a successful lookup reports; a failed one reports none. */
  function Kids(children: Lookup, pid: Pid): seq<Pid> {
    match children(pid)
    case Ok(kids) => kids
    case Err(_) => []
  }

  /** The children of all these processes, in order. */
  function KidsOf(children: Lookup, pids: seq<Pid>): seq<Pid> {
    if pids == [] then [] else Kids(children, pids[0]) + KidsOf(children, pids[1..])
  }

  predicate Distinct(pids: seq<Pid>) {
    forall i, j :: 0 <= i < j < |pids| ==> pids[i] != pids[j]
  }

  /** Lookups describe a finite forest around the root: no process has two parents, the root has none. */
  ghost predicate Forest(children: Lookup, root: Pid, all: set<Pid>) {
    && root in all
    && (forall p :: p in all ==> Distinct(Kids(children, p)) && root !in Kids(children, p))
    && (forall p, c :: p in all && c in Kids(children, p) ==> c in all)
    && (forall p, q, c :: p in all && q in all && c in Kids(children, p) && c in Kids(children, q) ==> p == q)
  }

  lemma {:induction false} KidsOfMembers(children: Lookup, pids: seq<Pid>)
    ensures forall c :: c in KidsOf(children, pids) <==> exists k :: 0 <= k < |pids| && c in Kids(children, pids[k])
  {
    if pids != [] {
      var rest := pids[1..];
      KidsOfMembers(children, rest);
      forall c
        ensures c in KidsOf(children, pids) <==> exists k :: 0 <= k < |pids| && c in Kids(children, pids[k])
      {
        if c in KidsOf(children, rest) {
          var k :| 0 <= k < |rest| && c in Kids(children, rest[k]);
          assert c in Kids(children, pids[k + 1]);
        }
        if k :| 0 <= k < |pids| && c in Kids(children, pids[k]) {
          assert k > 0 ==> c in Kids(children, rest[k - 1]);
        }
      }
    }
  }

  lemma {:induction false} KidsOfAppend(children: Lookup, a: seq<Pid>, b: seq<Pid>)
    ensures KidsOf(children, a + b) == KidsOf(children, a) + KidsOf(children, b)
  {
    if a == [] {
      assert a + b == b;
    } else {
      assert (a + b)[1..] == a[1..] + b;
      KidsOfAppend(children, a[1..], b);
    }
  }

  lemma KidsOfSnoc(children: Lookup, pids: seq<Pid>, more: seq<Pid>, p: Pid)
    requires more == pids + [p]
    ensures KidsOf(children, more) == KidsOf(children, pids) + Kids(children, p)
  {
    KidsOfAppend(children, pids, [p]);
    assert KidsOf(children, [p]) == Kids(children, p) + KidsOf(children, []);
  }

  /** Every process but the root was reported by an earlier one. */
  ghost predicate ParentsFirst(children: Lookup, pids: seq<Pid>) {
    forall j :: 1 <= j < |pids| ==> HasEarlierParent(children, pids, j)
  }

  ghost predicate HasEarlierParent(children: Lookup, pids: seq<Pid>, j: nat)
    requires j < |pids|
  {
    exists k :: 0 <= k < j && pids[j] in Kids(children, pids[k])
  }

  ghost predicate Explored(children: Lookup, root: Pid, all: set<Pid>, pids: seq<Pid>, head: nat) {
    && head <= |pids|
    && pids == [root] + KidsOf(children, pids[..head])
    && Distinct(pids)
    && (forall k :: 0 <= k < |pids| ==> pids[k] in all)
  }

  /** In a forest, the children of the next process have not been seen yet. */
  lemma ChildrenAreNew(children: Lookup, root: Pid, all: set<Pid>, pids: seq<Pid>, head: nat)
    requires Forest(children, root, all) && Explored(children, root, all, pids, head) && head < |pids|
    ensures forall c :: c in Kids(children, pids[head]) ==> c !in pids
  {
    var seen := pids[..head];
    KidsOfMembers(children, seen);
    forall c | c in Kids(children, pids[head]) ensures c !in pids {
      forall k | 0 <= k < |seen| ensures c !in Kids(children, seen[k]) {
        assert seen[k] == pids[k] && pids[k] != pids[head];
      }
      assert c !in KidsOf(children, seen);
    }
  }

  lemma DistinctAppend(a: seq<Pid>, b: seq<Pid>)
    requires Distinct(a) && Distinct(b) && forall c :: c in b ==> c !in a
    ensures Distinct(a + b)
  {
    var ab := a + b;
    forall i, j | 0 <= i < j < |ab| ensures ab[i] != ab[j] {
      assert j >= |a| ==> ab[j] in b;
      assert i < |a| ==> ab[i] in a;
      assert i >= |a| ==> ab[i] == b[i - |a|] && ab[j] == b[j - |a|];
    }
  }

  lemma ExploreOne(children: Lookup, root: Pid, all: set<Pid>, pids: seq<Pid>, head: nat)
    requires Forest(children, root, all) && Explored(children, root, all, pids, head) && head < |pids|
    ensures Explored(children, root, all, pids + Kids(children, pids[head]), head + 1)
  {
    var kids, seen := Kids(children, pids[head]), pids[..head];
    var more := pids + kids;
    assert Distinct(more) by {
      ChildrenAreNew(children, root, all, pids, head);
      assert pids[head] in all;
      DistinctAppend(pids, kids);
    }
    assert more == [root] + KidsOf(children, more[..head + 1]) by {
      assert more[..head + 1] == seen + [pids[head]];
      KidsOfSnoc(children, seen, more[..head + 1], pids[head]);
      assert more == [root] + (KidsOf(children, seen) + kids);
    }
    forall k | 0 <= k < |more| ensures more[k] in all {
      assert pids[head] in all;
      assert k >= |pids| ==> more[k] in kids;
    }
  }

  lemma ParentsStayFirst(children: Lookup, pids: seq<Pid>, head: nat, more: seq<Pid>)
    requires ParentsFirst(children, pids) && head < |pids| && more == pids + Kids(children, pids[head])
    ensures ParentsFirst(children, more)
  {
    forall j | 1 <= j < |more| ensures HasEarlierParent(children, more, j) {
      if j < |pids| {
        assert HasEarlierParent(children, pids, j);
        var k :| 0 <= k < j && pids[j] in Kids(children, pids[k]);
        assert more[j] in Kids(children, more[k]);
      } else {
        assert more[j] == Kids(children, pids[head])[j - |pids|] && more[head] == pids[head];
        assert more[j] in Kids(children, more[head]);
      }
    }
  }

  /** The walk's state: `head` processes were looked up, and the queue holds the rest. */
  ghost predicate Walking(children: Lookup, root: Pid, all: set<Pid>, pids: seq<Pid>, queue: seq<Pid>, head: nat) {
    Explored(children, root, all, pids, head) && ParentsFirst(children, pids) && queue == pids[head..]
  }

  lemma WalkOne(children: Lookup, root: Pid, all: set<Pid>, pids: seq<Pid>, queue: seq<Pid>, head: nat)
    requires Forest(children, root, all) && Walking(children, root, all, pids, queue, head) && queue != []
    ensures head < |all| && (head == 0 ==> queue[0] == root)
    ensures var kids := Kids(children, queue[0]);
      Walking(children, root, all, pids + kids, queue[1..] + kids, head + 1)
  {
    var kids := Kids(children, pids[head]);
    DistinctFits(pids, all);
    ExploreOne(children, root, all, pids, head);
    ParentsStayFirst(children, pids, head, pids + kids);
    assert (pids + kids)[head + 1..] == queue[1..] + kids;
  }

  lemma {:induction false} DistinctFits(pids: seq<Pid>, all: set<Pid>)
    requires Distinct(pids) && forall k :: 0 <= k < |pids| ==> pids[k] in all
    ensures |pids| <= |all|
  {
    if pids != [] {
      var last := pids[|pids| - 1];
      DistinctFits(pids[..|pids| - 1], all - {last});
    }
  }

  /** Fails exactly when the lookup of the root fails, and otherwise collects the processes to kill. */
  method CollectTree(children: Lookup, root: Pid, ghost all: set<Pid>) returns (r: Result<seq<Pid>, LookupError>)
    requires Forest(children, root, all)
    ensures r.Err? <==> children(root).Err?
    ensures r.Err? ==> r.error == children(root).error
    ensures r.Ok? ==>
      && r.value != [] && r.value[0] == root
      && (forall i, j :: 0 <= i < j < |r.value| ==> r.value[i] != r.value[j])
      && (forall p, c :: p in r.value && children(p).Ok? && c in children(p).value ==> c in r.value)
      && (forall j :: 1 <= j < |r.value| ==>
            exists k :: 0 <= k < j && children(r.value[k]).Ok? && r.value[j] in children(r.value[k]).value)
    ensures r.Ok? ==> Explored(children, root, all, r.value, |r.value|) && ParentsFirst(children, r.value)
  {
    var allPids, queue := [root], [root];
    var first := true;
    ghost var head := 0;
    while queue != []
      invariant Walking(children, root, all, allPids, queue, head)
      invariant first <==> head == 0
      invariant !first ==> children(root).Ok?
      decreases |all| - head
    {
      WalkOne(children, root, all, allPids, queue, head);
      var pid := queue[0];
      queue := queue[1..];
      var kids: seq<Pid> := [];
      match children(pid) {
        case Ok(c) => kids := c;
        case Err(e) =>
          if first {
            return Err(e);
          }
      }
      first := false;
      allPids, queue := allPids + kids, queue + kids;
      head := head + 1;
    }
    r := Ok(allPids);
    assert allPids[head..] == [] && head == |allPids|;
    ExploredMeans(children, root, all, allPids);
  }

  /** What a complete walk has collected, in plain words. */
  lemma ExploredMeans(children: Lookup, root: Pid, all: set<Pid>, pids: seq<Pid>)
    requires Explored(children, root, all, pids, |pids|) && ParentsFirst(children, pids)
    ensures pids != [] && pids[0] == root
    ensures forall i, j :: 0 <= i < j < |pids| ==> pids[i] != pids[j]
    ensures forall p, c :: p in pids && children(p).Ok? && c in children(p).value ==> c in pids
    ensures forall j :: 1 <= j < |pids| ==>
      exists k :: 0 <= k < j && children(pids[k]).Ok? && pids[j] in children(pids[k]).value
  {
    assert pids == [root] + KidsOf(children, pids) by {
      assert pids[..|pids|] == pids;
    }
    KidsOfMembers(children, pids);
    forall p, c | p in pids && children(p).Ok? && c in children(p).value ensures c in pids {
      var k :| 0 <= k < |pids| && pids[k] == p;
      assert c in Kids(children, pids[k]);
      assert c in KidsOf(children, pids);
    }
    forall j | 1 <= j < |pids|
      ensures exists k :: 0 <= k < j && children(pids[k]).Ok? && pids[j] in children(pids[k]).value
    {
      assert HasEarlierParent(children, pids, j);
    }
  }

  // ---- Exactly the reachable processes, level by level -----------------------------------------------

  /** The processes at distance `n` from the root, through successful lookups. */
  function Level(children: Lookup, root: Pid, n: nat): seq<Pid> {
    if n == 0 then [root] else KidsOf(children, Level(children, root, n - 1))
  }

  /** The levels below `n`, nearest first. */
  function Levels(children: Lookup, root: Pid, n: nat): seq<Pid> {
    if n == 0 then [] else Levels(children, root, n - 1) + Level(children, root, n - 1)
  }

  lemma Reassociate(root: Pid, a: seq<Pid>, b: seq<Pid>)
    ensures ([root] + a) + b == [root] + (a + b)
  {
  }

  lemma {:induction false} LevelsUnfold(children: Lookup, root: Pid, n: nat, nearer: seq<Pid>)
    requires n > 0 && nearer == Levels(children, root, n - 1)
    ensures Levels(children, root, n) == [root] + KidsOf(children, nearer)
  {
    if n > 1 {
      var nearest, last := Levels(children, root, n - 2), Level(children, root, n - 2);
      LevelsUnfold(children, root, n - 1, nearest);
      KidsOfAppend(children, nearest, last);
      Reassociate(root, KidsOf(children, nearest), KidsOf(children, last));
    }
  }

  lemma KidsOfPrefix(children: Lookup, a: seq<Pid>, pids: seq<Pid>)
    requires Prefix(a, pids)
    ensures Prefix(KidsOf(children, a), KidsOf(children, pids))
  {
    assert pids == a + pids[|a|..];
    KidsOfAppend(children, a, pids[|a|..]);
  }

  lemma PrefixUnder(root: Pid, a: seq<Pid>, b: seq<Pid>)
    requires Prefix(a, b)
    ensures Prefix([root] + a, [root] + b)
  {
    assert b == a + b[|a|..];
    Reassociate(root, a, b[|a|..]);
  }

  lemma {:induction false} LevelsArePrefixes(children: Lookup, root: Pid, pids: seq<Pid>, n: nat)
    requires pids == [root] + KidsOf(children, pids)
    ensures Prefix(Levels(children, root, n), pids)
  {
    if n > 0 {
      var nearer := Levels(children, root, n - 1);
      LevelsArePrefixes(children, root, pids, n - 1);
      LevelsUnfold(children, root, n, nearer);
      KidsOfPrefix(children, nearer, pids);
      PrefixUnder(root, KidsOf(children, nearer), KidsOf(children, pids));
    }
  }

  /** While no level is empty the levels grow. */
  lemma {:induction false} SomeLevelEnds(children: Lookup, root: Pid, n: nat) returns (k: nat)
    requires |Levels(children, root, n)| < n
    ensures k < n && Level(children, root, k) == []
  {
    if |Level(children, root, n - 1)| == 0 {
      k := n - 1;
    } else {
      k := SomeLevelEnds(children, root, n - 1);
    }
  }

  /** The walk collects the root and every process reachable through successful lookups, each once, in
      breadth-first order: level after level, down to an empty one. */
  lemma CollectsLevelByLevel(children: Lookup, root: Pid, all: set<Pid>, pids: seq<Pid>) returns (k: nat)
    requires Explored(children, root, all, pids, |pids|) && ParentsFirst(children, pids)
    ensures pids == Levels(children, root, k) && Level(children, root, k) == []
  {
    assert pids[..|pids|] == pids;
    LevelsArePrefixes(children, root, pids, |pids| + 1);
    LevelsArePrefixes(children, root, pids, |pids| + 2);
    k := SomeLevelEnds(children, root, |pids| + 2);
    var l := Levels(children, root, k);
    LevelsArePrefixes(children, root, pids, k);
    LevelsUnfold(children, root, k + 1, l);
    assert l == [root] + KidsOf(children, l);
    ClosedIsAll(children, root, pids, l);
  }

  lemma NextIsKnown(children: Lookup, pids: seq<Pid>, l: seq<Pid>)
    requires ParentsFirst(children, pids) && Prefix(l, pids) && l != [] && |l| < |pids|
    requires forall c :: c in KidsOf(children, l) ==> c in l
    ensures pids[|l|] in l
  {
    KidsOfMembers(children, l);
    assert HasEarlierParent(children, pids, |l|);
    var k :| 0 <= k < |l| && pids[|l|] in Kids(children, pids[k]);
    assert pids[k] == l[k];
  }

  /** A prefix that holds the children of all its members is everything. */
  lemma ClosedIsAll(children: Lookup, root: Pid, pids: seq<Pid>, l: seq<Pid>)
    requires Distinct(pids) && ParentsFirst(children, pids) && Prefix(l, pids)
    requires l != [] && forall c :: c in KidsOf(children, l) ==> c in l
    ensures l == pids
  {
    if |l| < |pids| {
      NextIsKnown(children, pids, l);
    }
  }

  /** A process is collected exactly when some level holds it. */
  lemma CollectedIffReachable(children: Lookup, root: Pid, all: set<Pid>, pids: seq<Pid>, p: Pid)
    requires Explored(children, root, all, pids, |pids|) && ParentsFirst(children, pids)
    ensures p in pids <==> exists n: nat :: p in Level(children, root, n)
  {
    var k := CollectsLevelByLevel(children, root, all, pids);
    if n: nat :| p in Level(children, root, n) {
      LevelsArePrefixes(children, root, pids, n + 1) by {
        assert pids[..|pids|] == pids;
      }
      assert Levels(children, root, n + 1) == Levels(children, root, n) + Level(children, root, n);
      assert p in Levels(children, root, n + 1);
    }
    if p in pids {
      var _ := LevelOf(children, root, k, p);
    }
  }

  lemma {:induction false} LevelOf(children: Lookup, root: Pid, k: nat, p: Pid) returns (n: nat)
    requires p in Levels(children, root, k)
    ensures p in Level(children, root, n)
  {
    if p in Level(children, root, k - 1) {
      n := k - 1;
    } else {
      n := LevelOf(children, root, k - 1, p);
    }
  }
}
