/** Small vocabulary shared by every component model. */
module Basics {

  datatype Option<+T> = None | Some(value: T)

  datatype Result<+T, +E> = Ok(value: T) | Err(error: E)

  /** One octet of a byte stream. */
  type Byte = b: int | 0 <= b < 256

  function Min(a: int, b: int): int {
    if a <= b then a else b
  }

  /** The last `n` elements of `s`, or all of it when it is shorter. */
  function LastN<T>(s: seq<T>, n: nat): seq<T> {
    if |s| <= n then s else s[|s| - n..]
  }

  predicate Prefix<T(==)>(a: seq<T>, b: seq<T>) {
    |a| <= |b| && a == b[..|a|]
  }

  lemma PrefixTrim<T>(a: seq<T>, b: seq<T>, c: seq<T>)
    requires Prefix(a + b, c)
    ensures Prefix(a, c)
  {
    assert a == (a + b)[..|a|] == c[..|a + b|][..|a|];
  }

  lemma PrefixExtend<T>(a: seq<T>, b: seq<T>, c: seq<T>)
    requires Prefix(a, b)
    ensures Prefix(a, b + c)
  {
    assert (b + c)[..|a|] == b[..|a|];
  }

  /** All parts joined in order. */
  function Concat<T>(parts: seq<seq<T>>): seq<T> {
    if parts == [] then [] else parts[0] + Concat(parts[1..])
  }

  lemma {:induction false} ConcatSnoc<T>(parts: seq<seq<T>>, last: seq<T>)
    ensures Concat(parts + [last]) == Concat(parts) + last
  {
    if parts == [] {
      assert parts + [last] == [last];
    } else {
      assert (parts + [last])[1..] == parts[1..] + [last];
      ConcatSnoc(parts[1..], last);
    }
  }

  lemma {:induction false} ConcatAppend<T>(a: seq<seq<T>>, b: seq<seq<T>>)
    ensures Concat(a + b) == Concat(a) + Concat(b)
  {
    if a == [] {
      assert a + b == b;
    } else {
      assert (a + b)[1..] == a[1..] + b;
      ConcatAppend(a[1..], b);
    }
  }

  /** `sub` can be obtained from `s` by deleting elements. */
  ghost predicate Subsequence<T(!new)>(sub: seq<T>, s: seq<T>)
    decreases |s|
  {
    sub == [] ||
    (s != [] && ((sub[0] == s[0] && Subsequence(sub[1..], s[1..])) || Subsequence(sub, s[1..])))
  }

  lemma {:induction false} SubsequenceSnoc<T(!new)>(sub: seq<T>, s: seq<T>, x: T)
    requires Subsequence(sub, s)
    ensures Subsequence(sub + [x], s + [x])
    ensures Subsequence(sub, s + [x])
    decreases |s|
  {
    if s == [] {
      assert sub + [x] == [x] && s + [x] == [x];
      assert Subsequence<T>([], []);
    } else {
      assert (s + [x])[1..] == s[1..] + [x];
      if sub == [] {
        SubsequenceSnoc([], s[1..], x);
        assert [] + [x] == sub + [x];
      } else if sub[0] == s[0] && Subsequence(sub[1..], s[1..]) {
        assert (sub + [x])[1..] == sub[1..] + [x];
        SubsequenceSnoc(sub[1..], s[1..], x);
      } else {
        SubsequenceSnoc(sub, s[1..], x);
      }
    }
  }

  lemma {:induction false} SubsequenceAppend<T(!new)>(sub: seq<T>, s: seq<T>, more: seq<T>)
    requires Subsequence(sub, s)
    ensures Subsequence(sub, s + more)
    decreases |more|
  {
    if more == [] {
      assert s + more == s;
    } else {
      SubsequenceSnoc(sub, s, more[0]);
      assert s + more == (s + [more[0]]) + more[1..];
      SubsequenceAppend(sub, s + [more[0]], more[1..]);
    }
  }

  lemma SubsequenceOfPrefix<T(!new)>(sub: seq<T>, a: seq<T>, b: seq<T>)
    requires Subsequence(sub, a) && |a| <= |b| && a == b[..|a|]
    ensures Subsequence(sub, b)
  {
    SubsequenceAppend(sub, a, b[|a|..]);
    assert b == a + b[|a|..];
  }
}
