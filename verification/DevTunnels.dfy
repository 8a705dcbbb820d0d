/** Choosing a tunnel name, and the back-off between reconnects. */
module DevTunnels {
  import opened Basics
  import Decimal

  const MAX_TUNNEL_NAME_LENGTH := 20

  /** A tunnel as listed: whether a host is connected to it, and its labels. */
  datatype Tunnel = Tunnel(hosted: bool, labels: seq<string>)

  // ---- Names -----------------------------------------------------------------------------------------

  predicate IsLower(c: char) { 'a' <= c <= 'z' }
  predicate IsUpper(c: char) { 'A' <= c <= 'Z' }
  predicate IsDigit(c: char) { '0' <= c <= '9' }

  /** Characters of a valid name; other Unicode word characters are not modelled. */
  predicate NameChar(c: char) {
    IsLower(c) || IsUpper(c) || IsDigit(c) || c == '_' || c == '-'
  }

  predicate IsValidName(name: string) {
    name != "" && |name| <= MAX_TUNNEL_NAME_LENGTH && forall k :: 0 <= k < |name| ==> NameChar(name[k])
  }

  function LowerChar(c: char): char {
    if IsUpper(c) then (c as int - 'A' as int + 'a' as int) as char else c
  }

  function Lower(s: string): (r: string)
    ensures |r| == |s|
    ensures forall k :: 0 <= k < |r| ==> r[k] == if 'A' <= s[k] <= 'Z' then (s[k] as int + 32) as char else s[k]
  {
    seq(|s|, k requires 0 <= k < |s| => LowerChar(s[k]))
  }

  /** What is kept of one host name character. */
  function Kept(c: char): string {
    if c == '-' || c == '_' || c == ' ' then "-"
    else if IsDigit(c) || IsLower(c) || IsUpper(c) then [c]
    else ""
  }

  predicate HostChar(c: char) {
    IsDigit(c) || IsLower(c) || IsUpper(c) || c == '-'
  }

  function Cleaned(s: string): (r: string)
    ensures forall k :: 0 <= k < |r| ==> HostChar(r[k])
    ensures |r| <= |s|
  {
    if s == "" then "" else Cleaned(s[..|s| - 1]) + Kept(s[|s| - 1])
  }

  /** One character after the other: letters and digits stay, a dash, an underscore or a space becomes a
      dash, and anything else goes. */
  lemma CleanedSnoc(s: string, c: char)
    ensures Cleaned("") == ""
    ensures Cleaned(s + [c]) == Cleaned(s) +
      (if c == '-' || c == '_' || c == ' ' then "-"
       else if '0' <= c <= '9' || 'a' <= c <= 'z' || 'A' <= c <= 'Z' then [c]
       else "")
  {
    assert (s + [c])[..|s|] == s;
  }

  /** `r` is `s` without the dashes at its ends. */
  ghost predicate IsTrimmed(s: string, r: string) {
    && (r != "" ==> r[0] != '-' && r[|r| - 1] != '-')
    && exists i, j :: 0 <= i <= j <= |s| && r == s[i..j] && (forall k :: 0 <= k < i || j <= k < |s| ==> s[k] == '-')
  }

  method TrimDashes(s: string) returns (r: string)
    ensures IsTrimmed(s, r)
  {
    var i, j := 0, |s|;
    while i < |s| && s[i] == '-'
      invariant i <= |s| && forall k :: 0 <= k < i ==> s[k] == '-'
    {
      i := i + 1;
    }
    while i < j && s[j - 1] == '-'
      invariant i <= j <= |s| && forall k :: j <= k < |s| ==> s[k] == '-'
    {
      j := j - 1;
    }
    r := s[i..j];
  }

  const FALLBACK := "remote-machine"

  lemma FallbackIsHostName()
    ensures |FALLBACK| == 14 && FALLBACK[0] != '-' && FALLBACK[13] != '-'
    ensures forall k :: 0 <= k < |FALLBACK| ==> HostChar(FALLBACK[k])
  {
  }

  method CleanChars(chars: string) returns (out: string)
    ensures out == Cleaned(chars)
  {
    out := "";
    for n := 0 to |chars|
      invariant out == Cleaned(chars[..n])
    {
      assert chars[..n + 1][..n] == chars[..n];
      out := out + Kept(chars[n]);
    }
    assert chars[..|chars|] == chars;
  }

  /** A host name cleaned for use as a tunnel name: two to sixty letters, digits and inner dashes. */
  method CleanHostnameForTunnel(hostname: string) returns (r: string)
    ensures exists t ::
      IsTrimmed(Cleaned(hostname[..Min(|hostname|, 60)]), t) && r == if |t| < 2 then FALLBACK else t
    ensures 2 <= |r| <= 60 && forall k :: 0 <= k < |r| ==> HostChar(r[k])
    ensures r[0] != '-' && r[|r| - 1] != '-'
  {
    var out := CleanChars(hostname[..Min(|hostname|, 60)]);
    var trimmed := TrimDashes(out);
    FallbackIsHostName();
    r := if |trimmed| < 2 then FALLBACK else trimmed;
  }

  lemma CutNameIsValid(n: string, k: nat)
    requires 2 <= k <= |n| && k <= MAX_TUNNEL_NAME_LENGTH && forall i :: 0 <= i < |n| ==> HostChar(n[i])
    ensures var r := Lower(n)[..k];
      IsValidName(r) && |r| == k && forall i :: 0 <= i < k ==> IsLower(r[i]) || IsDigit(r[i]) || r[i] == '-'
  {
    var r := Lower(n)[..k];
    forall i | 0 <= i < k ensures IsLower(r[i]) || IsDigit(r[i]) || r[i] == '-' {
      assert r[i] == LowerChar(n[i]);
    }
  }

  lemma LowerCut(n: string, k: nat)
    requires k <= |n|
    ensures Lower(n)[..k] == Lower(n[..k])
  {
  }

  /** The default name: valid whatever the host is called. */
  method GetPlaceholderName(hostname: string) returns (r: string)
    ensures exists t ::
      && IsTrimmed(Cleaned(hostname[..Min(|hostname|, 60)]), t)
      && var n := if |t| < 2 then "remote-machine" else t;
        r == Lower(n[..if |n| <= 20 then |n| else 20])
    ensures IsValidName(r) && |r| >= 2
    ensures forall k :: 0 <= k < |r| ==> IsLower(r[k]) || IsDigit(r[k]) || r[k] == '-'
  {
    var n := CleanHostnameForTunnel(hostname);
    r := Lower(n)[..Min(|n|, MAX_TUNNEL_NAME_LENGTH)];
    CutNameIsValid(n, Min(|n|, MAX_TUNNEL_NAME_LENGTH));
    LowerCut(n, Min(|n|, MAX_TUNNEL_NAME_LENGTH));
  }

  // ---- Looking for a free name ------------------------------------------------------------------------

  predicate IsNameFree(tunnels: seq<Tunnel>, name: string) {
    forall t :: t in tunnels && t.hosted ==> name !in t.labels
  }

  function Labels(labels: seq<string>): set<string> {
    set l | l in labels
  }

  /** The labels of tunnels with a connected host. */
  function Taken(tunnels: seq<Tunnel>): (taken: set<string>)
    ensures forall name :: IsNameFree(tunnels, name) <==> name !in taken
  {
    if tunnels == [] then {}
    else
      assert forall t :: t in tunnels <==> t == tunnels[0] || t in tunnels[1..];
      (if tunnels[0].hosted then Labels(tunnels[0].labels) else {}) + Taken(tunnels[1..])
  }

  function Suffixed(placeholder: string, i: nat): string {
    placeholder + Decimal.Format(i)
  }

  lemma SuffixedInjective(placeholder: string, i: nat, j: nat)
    ensures Suffixed(placeholder, i) == Suffixed(placeholder, j) ==> i == j
  {
    var a, b := Suffixed(placeholder, i), Suffixed(placeholder, j);
    assert a[|placeholder|..] == Decimal.Format(i) && b[|placeholder|..] == Decimal.Format(j);
    Decimal.FormatInjective(i, j);
  }

  /** The suffixed names from 2 up to, not including, `n`. */
  function Tried(placeholder: string, n: nat): set<string> {
    set i: nat | 2 <= i < n :: Suffixed(placeholder, i)
  }

  lemma {:induction false} TriedCount(placeholder: string, n: nat)
    requires n >= 2
    ensures |Tried(placeholder, n)| == n - 2
  {
    if n > 2 {
      TriedCount(placeholder, n - 1);
      var before, last := Tried(placeholder, n - 1), Suffixed(placeholder, n - 1);
      forall i: nat | 2 <= i < n - 1 ensures Suffixed(placeholder, i) != last {
        SuffixedInjective(placeholder, i, n - 1);
      }
      assert Tried(placeholder, n) == before + {last};
    } else {
      assert Tried(placeholder, n) == {};
    }
  }

  lemma SubsetCount(a: set<string>, b: set<string>)
    requires a <= b
    ensures |a| <= |b|
  {
    assert b == a + (b - a);
  }

  /** With every smaller suffix taken, there are that many taken labels. */
  lemma TriedFits(tunnels: seq<Tunnel>, placeholder: string, n: nat)
    requires n >= 2 && forall i: nat :: 2 <= i < n ==> !IsNameFree(tunnels, Suffixed(placeholder, i))
    ensures n - 2 <= |Taken(tunnels)|
  {
    TriedCount(placeholder, n);
    assert Tried(placeholder, n) <= Taken(tunnels);
    SubsetCount(Tried(placeholder, n), Taken(tunnels));
  }

  ghost predicate LeastSuffix(tunnels: seq<Tunnel>, placeholder: string, name: string, i: nat) {
    && 2 <= i && name == Suffixed(placeholder, i)
    && (forall j: nat :: 2 <= j < i ==> !IsNameFree(tunnels, Suffixed(placeholder, j)))
  }

  /** The name is the placeholder or, if this is taken, the placeholder with the least free suffix. */
  ghost predicate FirstFree(tunnels: seq<Tunnel>, placeholder: string, name: string) {
    if IsNameFree(tunnels, placeholder) then name == placeholder
    else IsNameFree(tunnels, name) && exists i: nat :: LeastSuffix(tunnels, placeholder, name, i)
  }

  /** The search ends: it needs at most one suffix more than there are taken labels. */
  method FreeName(tunnels: seq<Tunnel>, placeholder: string) returns (name: string)
    ensures forall t :: t in tunnels && t.hosted ==> name !in t.labels
    ensures (exists t :: t in tunnels && t.hosted && placeholder in t.labels) || name == placeholder
    ensures name == placeholder ||
      exists i: nat :: i >= 2 && name == placeholder + Decimal.Format(i) && (forall j: nat :: 2 <= j < i ==>
        (exists t :: t in tunnels && t.hosted && placeholder + Decimal.Format(j) in t.labels))
    ensures FirstFree(tunnels, placeholder, name) && IsNameFree(tunnels, name)
  {
    name := placeholder;
    if !IsNameFree(tunnels, name) {
      var i: nat := 2;
      name := Suffixed(placeholder, i);
      while !IsNameFree(tunnels, name)
        invariant 2 <= i && name == Suffixed(placeholder, i)
        invariant forall j: nat :: 2 <= j < i ==> !IsNameFree(tunnels, Suffixed(placeholder, j))
        decreases |Taken(tunnels)| + 2 - i
      {
        TriedFits(tunnels, placeholder, i + 1);
        i := i + 1;
        name := Suffixed(placeholder, i);
      }
      assert LeastSuffix(tunnels, placeholder, name, i);
      forall j: nat | 2 <= j < i
        ensures exists t :: t in tunnels && t.hosted && placeholder + Decimal.Format(j) in t.labels
      {
        assert !IsNameFree(tunnels, Suffixed(placeholder, j));
      }
      assert name == placeholder + Decimal.Format(i);
    }
  }

  /** The chosen suffix is bounded by the number of taken labels. */
  lemma SuffixBound(tunnels: seq<Tunnel>, placeholder: string, i: nat)
    requires LeastSuffix(tunnels, placeholder, Suffixed(placeholder, i), i)
    ensures i <= |Taken(tunnels)| + 2
  {
    TriedFits(tunnels, placeholder, i);
  }

  /** A valid placeholder with a suffix is a valid name exactly when both together fit. */
  lemma SuffixedValidIff(placeholder: string, i: nat)
    requires IsValidName(placeholder)
    ensures IsValidName(Suffixed(placeholder, i)) <==> |placeholder| + |Decimal.Format(i)| <= MAX_TUNNEL_NAME_LENGTH
  {
    var name, digits := Suffixed(placeholder, i), Decimal.Format(i);
    forall k | 0 <= k < |name| ensures NameChar(name[k]) {
      if k < |placeholder| {
        assert name[k] == placeholder[k];
      } else {
        assert name[k] == digits[k - |placeholder|];
      }
    }
  }

  /** A placeholder cut to the full length is never valid with a suffix, so a second machine with such
      a host name gets a name that the check for chosen names would refuse. */
  lemma FullLengthSuffixInvalid(tunnels: seq<Tunnel>, placeholder: string, name: string)
    requires IsValidName(placeholder) && |placeholder| == MAX_TUNNEL_NAME_LENGTH
    requires FirstFree(tunnels, placeholder, name)
    ensures IsValidName(name) <==> IsNameFree(tunnels, placeholder)
  {
    if !IsNameFree(tunnels, placeholder) {
      var i: nat :| LeastSuffix(tunnels, placeholder, name, i);
      SuffixedValidIff(placeholder, i);
    }
  }

  lemma LowerNameValid(name: string)
    ensures IsValidName(Lower(name)) <==>
      && 1 <= |name| <= 20
      && forall c :: c in name ==> 'a' <= c <= 'z' || 'A' <= c <= 'Z' || '0' <= c <= '9' || c == '_' || c == '-'
  {
    forall k | 0 <= k < |name| ensures NameChar(Lower(name)[k]) <==> NameChar(name[k]) {
    }
    if c :| c in name && !NameChar(c) {
      var k :| 0 <= k < |name| && name[k] == c;
      assert !NameChar(Lower(name)[k]);
    }
  }

  datatype NameResult = Name(name: string) | InvalidName

  /** The name without asking the user: the preferred one if it is valid and free, and otherwise the
      default one with the least free suffix if it needs any. */
  method GetNameForTunnel(tunnels: seq<Tunnel>, preferred: Option<string>, hostname: string)
    returns (r: NameResult, ghost placeholder: string)
    ensures r.InvalidName? ==> preferred.Some?
    ensures preferred.Some? ==> (r.Name? <==>
      && 1 <= |preferred.value| <= 20
      && (forall c :: c in preferred.value ==>
            'a' <= c <= 'z' || 'A' <= c <= 'Z' || '0' <= c <= '9' || c == '_' || c == '-'))
    ensures r.Name? ==> forall t :: t in tunnels && t.hosted ==> r.name !in t.labels
    ensures r.Name? ==>
      if preferred.Some? && IsNameFree(tunnels, Lower(preferred.value)) then r.name == Lower(preferred.value)
      else IsValidName(placeholder) && FirstFree(tunnels, placeholder, r.name)
  {
    placeholder := "";
    if preferred.Some? {
      var name := Lower(preferred.value);
      LowerNameValid(preferred.value);
      if !IsValidName(name) {
        return InvalidName, placeholder;
      }
      if IsNameFree(tunnels, name) {
        return Name(name), placeholder;
      }
    }
    var p := GetPlaceholderName(hostname);
    placeholder := p;
    var name := FreeName(tunnels, p);
    r := Name(name);
  }

  // ---- Comparing label lists ---------------------------------------------------------------------------

  predicate NoRepeats(a: seq<string>) {
    forall i, j :: 0 <= i < j < |a| ==> a[i] != a[j]
  }

  predicate EqAsSet(a: seq<string>, b: seq<string>) {
    |a| == |b| && Labels(a) <= Labels(b)
  }

  method VecEqAsSet(a: seq<string>, b: seq<string>) returns (eq: bool)
    ensures eq <==> |a| == |b| && forall l :: l in a ==> l in b
    ensures eq <==> EqAsSet(a, b)
  {
    if |a| != |b| {
      return false;
    }
    for i := 0 to |a|
      invariant forall k :: 0 <= k < i ==> a[k] in b
    {
      if a[i] !in b {
        assert a[i] in Labels(a);
        return false;
      }
    }
    eq := true;
  }

  lemma {:induction false} LabelCount(a: seq<string>)
    ensures |Labels(a)| <= |a|
    ensures NoRepeats(a) ==> |Labels(a)| == |a|
  {
    if a != [] {
      var front, last := a[..|a| - 1], a[|a| - 1];
      LabelCount(front);
      assert forall l :: l in a <==> l in front || l == last;
      assert Labels(a) == Labels(front) + {last};
      if NoRepeats(a) {
        assert last !in front;
      }
    }
  }

  /** A string longer than all of these. */
  function Longer(a: seq<string>): (s: string)
    ensures forall l :: l in a ==> |l| < |s|
  {
    if a == [] then "x"
    else
      var rest := Longer(a[1..]);
      assert forall l :: l in a ==> l == a[0] || l in a[1..];
      rest + a[0]
  }

  lemma RepeatHidesADifference(a: seq<string>, i: nat, j: nat)
    requires i < j < |a| && a[i] == a[j]
    ensures var b := a[j := Longer(a)]; EqAsSet(a, b) && Labels(a) != Labels(b)
  {
    var b := a[j := Longer(a)];
    forall l | l in a ensures l in b {
      var k :| 0 <= k < |a| && a[k] == l;
      assert b[if k == j then i else k] == l;
    }
    assert b[j] in Labels(b) && b[j] !in Labels(a);
  }

  /** The comparison can call different label sets equal exactly when the first list has repeats. */
  lemma EqAsSetSoundIff(a: seq<string>)
    ensures NoRepeats(a) <==> forall b :: EqAsSet(a, b) ==> Labels(a) == Labels(b)
  {
    if NoRepeats(a) {
      forall b | EqAsSet(a, b) ensures Labels(a) == Labels(b) {
        LabelCount(a);
        LabelCount(b);
        SameSize(Labels(a), Labels(b));
      }
    } else {
      var i, j :| 0 <= i < j < |a| && a[i] == a[j];
      RepeatHidesADifference(a, i, j);
    }
  }

  lemma SameSize(a: set<string>, b: set<string>)
    requires a <= b && |b| <= |a|
    ensures a == b
  {
    assert b == a + (b - a);
  }

  /** Without repeats it decides equality of the sets. */
  lemma EqAsSetExact(a: seq<string>, b: seq<string>)
    requires NoRepeats(a) && NoRepeats(b)
    ensures EqAsSet(a, b) <==> Labels(a) == Labels(b)
  {
    EqAsSetSoundIff(a);
    LabelCount(a);
    LabelCount(b);
  }

  // ---- Back-off ----------------------------------------------------------------------------------------

  /** Durations in nanoseconds; the type holds 64 bits of seconds. */
  const DURATION_MAX: nat := 0x1_0000_0000_0000_0000 * 1_000_000_000 - 1

  type Duration = d: nat | d <= DURATION_MAX

  function CheckedMul(d: Duration, k: nat): Option<Duration> {
    if d * k <= DURATION_MAX then Some(d * k) else None
  }

  /** The delay after `k` failures in a row. */
  function Delay(base: Duration, max: Duration, k: nat): nat {
    Min(k * base, max)
  }

  class Backoff {
    var failures: nat
    const base: Duration
    const max: Duration

    constructor (base: Duration, max: Duration)
      ensures this.base == base && this.max == max && failures == 0
    {
      this.base, this.max, failures := base, max, 0;
    }

    /** Overflow of the multiplication is no different from reaching the cap. */
    method Next() returns (d: Duration)
      modifies this
      ensures failures == old(failures) + 1
      ensures d == if failures * base <= max then failures * base else max
    {
      failures := failures + 1;
      var product := CheckedMul(base, failures);
      var duration := if product.Some? then product.value else max;
      d := Min(duration, max);
    }

    method Reset()
      modifies this
      ensures failures == 0
    {
      failures := 0;
    }

    /** `n` failures after a success: the delays grow by the base up to the cap. */
    method ConsecutiveDelays(n: nat) returns (delays: seq<nat>)
      modifies this
      ensures |delays| == n
      ensures forall k :: 0 <= k < n ==> delays[k] == if (k + 1) * base <= max then (k + 1) * base else max
      ensures forall k :: 0 <= k < n ==> delays[k] == Delay(base, max, k + 1)
    {
      Reset();
      delays := [];
      for k := 0 to n
        invariant failures == k && |delays| == k
        invariant forall j :: 0 <= j < k ==> delays[j] == Delay(base, max, j + 1)
      {
        var d := Next();
        delays := delays + [d];
      }
    }
  }

  /** Delays never shrink, never exceed the cap, and stay at it once it is reached. */
  lemma DelayMonotone(base: Duration, max: Duration, j: nat, k: nat)
    requires j <= k
    ensures Delay(base, max, j) <= Delay(base, max, k) <= max
    ensures Delay(base, max, j) == max ==> Delay(base, max, k) == max
  {
    assert k * base == j * base + (k - j) * base;
    assert (k - j) * base >= 0;
  }
}
