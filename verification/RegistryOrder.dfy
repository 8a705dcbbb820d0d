/** The deterministic order of registry listings: standalone before editor, then by instance id. */
module RegistryOrder {
  import opened Registry

  /** Strings compared by code point. */
  predicate LexLe(a: string, b: string) {
    a == [] || (b != [] && (a[0] < b[0] || (a[0] == b[0] && LexLe(a[1..], b[1..]))))
  }

  lemma {:induction false} LexTotal(a: string, b: string)
    ensures LexLe(a, b) || LexLe(b, a)
    ensures LexLe(a, b) && LexLe(b, a) ==> a == b
  {
    if a != [] && b != [] && a[0] == b[0] {
      LexTotal(a[1..], b[1..]);
      assert a == [a[0]] + a[1..] && b == [b[0]] + b[1..];
    }
  }

  lemma {:induction false} LexTransitive(a: string, b: string, c: string)
    requires LexLe(a, b) && LexLe(b, c)
    ensures LexLe(a, c)
  {
    if a != [] && a[0] == b[0] && b[0] == c[0] {
      LexTransitive(a[1..], b[1..], c[1..]);
    }
  }

  /** The order in plain words: a prefix comes first, and otherwise the first difference decides. */
  lemma {:induction false} LexLeMeans(a: string, b: string)
    ensures LexLe(a, b) <==> a <= b || exists k: nat :: k < |a| && k < |b| && a[..k] == b[..k] && a[k] < b[k]
  {
    if a != [] && b != [] {
      LexLeMeans(a[1..], b[1..]);
      if a[0] == b[0] {
        assert a <= b <==> a[1..] <= b[1..] by {
          assert a == [a[0]] + a[1..] && b == [b[0]] + b[1..];
        }
        if k: nat :| k < |a[1..]| && k < |b[1..]| && a[1..][..k] == b[1..][..k] && a[1..][k] < b[1..][k] {
          assert a[..k + 1] == [a[0]] + a[1..][..k] && b[..k + 1] == [b[0]] + b[1..][..k];
          assert a[k + 1] < b[k + 1];
        }
        if k: nat :| k < |a| && k < |b| && a[..k] == b[..k] && a[k] < b[k] {
          assert a[1..][..k - 1] == a[..k][1..] && b[1..][..k - 1] == b[..k][1..];
          assert a[1..][k - 1] < b[1..][k - 1];
        }
      } else {
        assert a[..0] == b[..0];
        assert forall k :: 0 < k < |a| && k < |b| ==> a[..k][0] == a[0] && b[..k][0] == b[0];
      }
    }
  }

  function SortRank(t: ServerType): nat {
    match t
    case Standalone => 0
    case Editor => 1
  }

  predicate KeyLe(x: Entry, y: Entry) {
    || SortRank(x.serverType) < SortRank(y.serverType)
    || (SortRank(x.serverType) == SortRank(y.serverType) && LexLe(x.instanceId, y.instanceId))
  }

  /** The order of listings in plain words. */
  lemma KeyLeMeans(x: Entry, y: Entry)
    requires KeyLe(x, y)
    ensures !(x.serverType.Editor? && y.serverType.Standalone?)
    ensures x.serverType == y.serverType ==>
      var a, b := x.instanceId, y.instanceId;
      a <= b || exists k: nat :: k < |a| && k < |b| && a[..k] == b[..k] && a[k] < b[k]
  {
    LexLeMeans(x.instanceId, y.instanceId);
  }

  predicate SameKey(x: Entry, y: Entry) {
    x.serverType == y.serverType && x.instanceId == y.instanceId
  }

  lemma KeyTotal(x: Entry, y: Entry)
    ensures KeyLe(x, y) || KeyLe(y, x)
    ensures KeyLe(x, y) && KeyLe(y, x) <==> SameKey(x, y)
  {
    LexTotal(x.instanceId, y.instanceId);
    LexTotal(x.instanceId, x.instanceId);
  }

  lemma KeyTransitive(x: Entry, y: Entry, z: Entry)
    requires KeyLe(x, y) && KeyLe(y, z)
    ensures KeyLe(x, z)
  {
    if SortRank(x.serverType) == SortRank(z.serverType) {
      LexTransitive(x.instanceId, y.instanceId, z.instanceId);
    }
  }

  function Insert(x: Entry, s: seq<Entry>): seq<Entry> {
    if s == [] || KeyLe(x, s[0]) then [x] + s else [s[0]] + Insert(x, s[1..])
  }

  /** What a stable sort by key returns. */
  function Sort(s: seq<Entry>): seq<Entry> {
    if s == [] then [] else Insert(s[0], Sort(s[1..]))
  }

  ghost predicate Sorted(s: seq<Entry>) {
    forall i, j :: 0 <= i < j < |s| ==> KeyLe(s[i], s[j])
  }

  lemma {:induction false} InsertSorted(x: Entry, s: seq<Entry>)
    requires Sorted(s)
    ensures Sorted(Insert(x, s))
    ensures multiset(Insert(x, s)) == multiset(s) + multiset{x}
  {
    if s != [] {
      assert s == [s[0]] + s[1..];
      if KeyLe(x, s[0]) {
        forall j | 0 <= j < |s| ensures KeyLe(x, s[j]) {
          if j > 0 {
            KeyTransitive(x, s[0], s[j]);
          }
        }
      } else {
        InsertSorted(x, s[1..]);
        KeyTotal(x, s[0]);
        var t := Insert(x, s[1..]);
        forall j | 0 <= j < |t| ensures KeyLe(s[0], t[j]) {
          assert t[j] in multiset(t);
          assert t[j] == x || t[j] in s[1..];
        }
      }
    }
  }

  lemma {:induction false} SortIsSorted(s: seq<Entry>)
    ensures Sorted(Sort(s)) && multiset(Sort(s)) == multiset(s)
  {
    if s != [] {
      SortIsSorted(s[1..]);
      InsertSorted(s[0], Sort(s[1..]));
      assert s == [s[0]] + s[1..];
    }
  }

  /** The entries with the key of `k`, in order. */
  function WithKey(s: seq<Entry>, k: Entry): seq<Entry> {
    if s == [] then [] else (if SameKey(s[0], k) then [s[0]] else []) + WithKey(s[1..], k)
  }

  lemma {:induction false} InsertStable(x: Entry, s: seq<Entry>, k: Entry)
    ensures WithKey(Insert(x, s), k) == (if SameKey(x, k) then [x] else []) + WithKey(s, k)
  {
    if s == [] || KeyLe(x, s[0]) {
      assert ([x] + s)[1..] == s;
    } else {
      InsertStable(x, s[1..], k);
      KeyTotal(x, s[0]);
      var t := Insert(x, s[1..]);
      assert ([s[0]] + t)[1..] == t;
    }
  }

  /** Entries with the same key keep their order. */
  lemma {:induction false} SortStable(s: seq<Entry>, k: Entry)
    ensures WithKey(Sort(s), k) == WithKey(s, k)
  {
    if s != [] {
      SortStable(s[1..], k);
      InsertStable(s[0], Sort(s[1..]), k);
    }
  }

  ghost predicate DistinctKeys(s: seq<Entry>) {
    forall x, y :: x in s && y in s && SameKey(x, y) ==> x == y
  }

  lemma FirstIsLeast(s: seq<Entry>, x: Entry)
    requires Sorted(s) && x in s
    ensures KeyLe(s[0], x)
  {
    KeyTotal(s[0], s[0]);
  }

  lemma HeadsAgree(a: seq<Entry>, b: seq<Entry>)
    requires Sorted(a) && Sorted(b) && multiset(a) == multiset(b) && DistinctKeys(a) && a != [] && b != []
    ensures a[0] == b[0]
  {
    assert b[0] in multiset(a) && a[0] in multiset(b);
    FirstIsLeast(a, b[0]);
    FirstIsLeast(b, a[0]);
    KeyTotal(a[0], b[0]);
  }

  lemma TailCounts(s: seq<Entry>)
    requires s != []
    ensures multiset(s[1..]) == multiset(s) - multiset{s[0]}
    ensures Sorted(s) ==> Sorted(s[1..])
  {
    assert s == [s[0]] + s[1..];
  }

  /** With distinct keys there is only one sorted arrangement. */
  lemma {:induction false} SortedUnique(a: seq<Entry>, b: seq<Entry>)
    requires Sorted(a) && Sorted(b) && multiset(a) == multiset(b) && DistinctKeys(a)
    ensures a == b
  {
    assert |a| == |multiset(a)| == |multiset(b)| == |b|;
    if a != [] {
      var ta, tb := a[1..], b[1..];
      HeadsAgree(a, b);
      assert multiset(ta) == multiset(tb) && Sorted(ta) && Sorted(tb) by {
        TailCounts(a);
        TailCounts(b);
      }
      assert forall x :: x in ta ==> x in a;
      SortedUnique(ta, tb);
      assert a == [a[0]] + ta && b == [b[0]] + tb;
    }
  }
}
