/** Lexical path checks during archive extraction, on Unix paths as component lists.

    Splitting a path string into components is not modelled; a canonical root is absolute and has no
    dots. */
module Paths {
  import opened Basics

  datatype Part = CurDir | ParentDir | Normal(name: string)

  datatype Path = Path(absolute: bool, parts: seq<Part>)

  /** A path buffer without `.` and `..` components. */
  datatype Clean = Clean(absolute: bool, names: seq<string>)

  datatype Refusal = Empty | Absolute | Escapes

  function Parts(names: seq<string>): (ps: seq<Part>)
    ensures |ps| == |names| && forall k :: 0 <= k < |ps| ==> ps[k] == Normal(names[k])
  {
    seq(|names|, k requires 0 <= k < |names| => Normal(names[k]))
  }

  function Join(base: Clean, path: Path): Path {
    if path.absolute then path else Path(base.absolute, Parts(base.names) + path.parts)
  }

  /** Component-wise prefix of an absolute path. */
  predicate StartsWith(path: Clean, root: Clean) {
    path.absolute && Prefix(root.names, path.names)
  }

  // ---- Walking a directory tree --------------------------------------------------------------------

  function Up(at: seq<string>): seq<string> {
    if at == [] then at else at[..|at| - 1]
  }

  /** Where a walk ends that starts at `at`; going up from the top stays there. */
  function Walk(at: seq<string>, parts: seq<Part>): seq<string>
    decreases |parts|
  {
    if parts == [] then at
    else
      match parts[0]
      case CurDir => Walk(at, parts[1..])
      case Normal(name) => Walk(at + [name], parts[1..])
      case ParentDir => Walk(Up(at), parts[1..])
  }

  function Delta(part: Part): int {
    match part
    case CurDir => 0
    case Normal(_) => 1
    case ParentDir => -1
  }

  /** Net number of levels the components go down. */
  function Depth(parts: seq<Part>): int {
    if parts == [] then 0 else Delta(parts[0]) + Depth(parts[1..])
  }

  /** A walk starting `levels` deep never tries to leave the top. */
  predicate NeverAbove(parts: seq<Part>, levels: int)
    decreases |parts|
  {
    levels >= 0 && (parts != [] ==> NeverAbove(parts[1..], levels + Delta(parts[0])))
  }

  /** That is, at every point of the walk at least as many levels were entered as left. */
  lemma {:induction false} NeverAboveIff(parts: seq<Part>, levels: int)
    ensures NeverAbove(parts, levels) <==> forall k :: 0 <= k <= |parts| ==> levels + Depth(parts[..k]) >= 0
    decreases |parts|
  {
    assert parts[..0] == [];
    if parts != [] {
      var rest, down := parts[1..], Delta(parts[0]);
      NeverAboveIff(rest, levels + down);
      forall k | 0 <= k <= |rest| ensures Depth(parts[..k + 1]) == down + Depth(rest[..k]) {
        assert parts[..k + 1][1..] == rest[..k];
      }
      forall k | 0 <= k <= |rest| && levels + Depth(parts[..k + 1]) >= 0
        ensures levels + down + Depth(rest[..k]) >= 0
      {
      }
      forall k | 1 <= k <= |parts| && levels + down + Depth(rest[..k - 1]) >= 0
        ensures levels + Depth(parts[..k]) >= 0
      {
        assert Depth(parts[..(k - 1) + 1]) == down + Depth(rest[..k - 1]);
      }
    }
  }

  /** A walk that never tries to leave the top ends as deep as its components say. */
  lemma {:induction false} WalkLength(at: seq<string>, parts: seq<Part>)
    requires NeverAbove(parts, |at|)
    ensures |Walk(at, parts)| == |at| + Depth(parts)
    decreases |parts|
  {
    if parts != [] {
      assert NeverAbove(parts[1..], |at| + Delta(parts[0]));
      match parts[0]
      case CurDir => WalkLength(at, parts[1..]);
      case Normal(name) => WalkLength(at + [name], parts[1..]);
      case ParentDir => WalkLength(Up(at), parts[1..]);
    }
  }

  /** Drops `.`, resolves `..`, and gives up exactly when the walk would leave the top. */
  method LexicallyNormalize(path: Path) returns (r: Option<Clean>)
    ensures r.Some? <==> NeverAbove(path.parts, 0)
    ensures r.Some? ==> r.value == Clean(path.absolute, Walk([], path.parts))
  {
    var out: seq<string> := [];
    assert path.parts[0..] == path.parts;
    for i := 0 to |path.parts|
      invariant NeverAbove(path.parts, 0) <==> NeverAbove(path.parts[i..], |out|)
      invariant Walk([], path.parts) == Walk(out, path.parts[i..])
    {
      assert path.parts[i..][1..] == path.parts[i + 1..];
      match path.parts[i] {
        case CurDir =>
        case Normal(name) => out := out + [name];
        case ParentDir =>
          if out == [] {
            assert !NeverAbove(path.parts[i + 1..], -1);
            return None;
          }
          out := out[..|out| - 1];
      }
    }
    r := Some(Clean(path.absolute, out));
  }

  /** Below a clean base, the walk goes on from there with the base's depth to spare. */
  lemma {:induction false} BelowBase(at: seq<string>, names: seq<string>, parts: seq<Part>)
    ensures Walk(at, Parts(names) + parts) == Walk(at + names, parts)
    ensures NeverAbove(Parts(names) + parts, |at|) <==> NeverAbove(parts, |at| + |names|)
    decreases |names|
  {
    if names == [] {
      assert Parts(names) + parts == parts && at + names == at;
    } else {
      assert (Parts(names) + parts)[1..] == Parts(names[1..]) + parts;
      assert (at + [names[0]]) + names[1..] == at + names;
      BelowBase(at + [names[0]], names[1..], parts);
    }
  }

  /** Normalizing again changes nothing. */
  lemma NormalizedStays(names: seq<string>)
    ensures NeverAbove(Parts(names), 0) && Walk([], Parts(names)) == names
  {
    BelowBase([], names, []);
    assert Parts(names) + [] == Parts(names) && [] + names == names;
  }

  // ---- The rules of the walk -----------------------------------------------------------------------

  lemma {:induction false} WalkAppend(at: seq<string>, a: seq<Part>, b: seq<Part>)
    ensures Walk(at, a + b) == Walk(Walk(at, a), b)
    decreases |a|
  {
    if a == [] {
      assert a + b == b;
    } else {
      assert (a + b)[1..] == a[1..] + b;
      match a[0]
      case CurDir => WalkAppend(at, a[1..], b);
      case Normal(name) => WalkAppend(at + [name], a[1..], b);
      case ParentDir => WalkAppend(Up(at), a[1..], b);
    }
  }

  lemma {:induction false} NeverAboveAppend(a: seq<Part>, b: seq<Part>, levels: int)
    ensures NeverAbove(a + b, levels) <==> NeverAbove(a, levels) && NeverAbove(b, levels + Depth(a))
    decreases |a|
  {
    if a == [] {
      assert a + b == b;
    } else {
      assert (a + b)[1..] == a[1..] + b;
      NeverAboveAppend(a[1..], b, levels + Delta(a[0]));
    }
  }

  lemma LeadingDot(at: seq<string>, levels: int, b: seq<Part>)
    ensures Walk(at, [CurDir] + b) == Walk(at, b)
    ensures NeverAbove([CurDir] + b, levels) <==> NeverAbove(b, levels)
  {
    assert ([CurDir] + b)[1..] == b;
  }

  lemma LeadingName(at: seq<string>, levels: int, name: string, b: seq<Part>)
    ensures Walk(at, [Normal(name)] + b) == Walk(at + [name], b)
    ensures NeverAbove([Normal(name)] + b, levels) <==> levels >= 0 && NeverAbove(b, levels + 1)
  {
    assert ([Normal(name)] + b)[1..] == b;
  }

  lemma LeadingParent(at: seq<string>, levels: int, b: seq<Part>)
    ensures Walk(at, [ParentDir] + b) == Walk(Up(at), b)
    ensures NeverAbove([ParentDir] + b, levels) <==> levels >= 1 && NeverAbove(b, levels - 1)
  {
    assert ([ParentDir] + b)[1..] == b;
    assert NeverAbove(b, levels - 1) ==> levels - 1 >= 0;
  }

  /** A `.` anywhere makes no difference. */
  lemma DotMakesNoDifference(at: seq<string>, a: seq<Part>, levels: int, b: seq<Part>)
    ensures Walk(at, a + ([CurDir] + b)) == Walk(at, a + b)
    ensures NeverAbove(a + ([CurDir] + b), levels) <==> NeverAbove(a + b, levels)
  {
    WalkAppend(at, a, [CurDir] + b);
    WalkAppend(at, a, b);
    NeverAboveAppend(a, [CurDir] + b, levels);
    NeverAboveAppend(a, b, levels);
    LeadingDot(Walk(at, a), levels + Depth(a), b);
  }

  /** A name anywhere directly before a `..` makes no difference. */
  lemma NameAndParentCancel(at: seq<string>, a: seq<Part>, name: string, levels: int, b: seq<Part>)
    ensures Walk(at, a + ([Normal(name)] + ([ParentDir] + b))) == Walk(at, a + b)
    ensures NeverAbove(a + ([Normal(name)] + ([ParentDir] + b)), levels) <==> NeverAbove(a + b, levels)
  {
    var one, here := [ParentDir] + b, Walk(at, a);
    WalkAppend(at, a, [Normal(name)] + one);
    WalkAppend(at, a, b);
    NeverAboveAppend(a, [Normal(name)] + one, levels);
    NeverAboveAppend(a, b, levels);
    LeadingName(here, levels + Depth(a), name, one);
    LeadingParent(here + [name], levels + Depth(a) + 1, b);
    assert Up(here + [name]) == here;
    NotBelowZero(b, levels + Depth(a));
  }

  lemma NotBelowZero(parts: seq<Part>, levels: int)
    ensures NeverAbove(parts, levels) ==> levels >= 0
  {
  }

  /** A `..` at the top leaves it. */
  lemma ParentLeavesTheTop(b: seq<Part>)
    ensures !NeverAbove([ParentDir] + b, 0)
  {
    LeadingParent([], 0, b);
  }

  // ---- Extraction entries and symlinks --------------------------------------------------------------

  /** The place an entry asks for, walking from a directory, is inside the root. */
  ghost predicate LandsInside(root: Clean, from: seq<string>, parts: seq<Part>) {
    NeverAbove(parts, |from|) && Prefix(root.names, Walk(from, parts))
  }

  /** Accepts exactly the non-empty relative entries that land inside the root, at that place. */
  method SafeExtractJoin(root: Clean, entry: Path) returns (r: Result<Clean, Refusal>)
    requires root.absolute
    ensures r == Err(Empty) <==> entry == Path(false, [])
    ensures r == Err(Absolute) <==> entry.absolute
    ensures r.Ok? <==> entry != Path(false, []) && !entry.absolute && LandsInside(root, root.names, entry.parts)
    ensures r.Ok? ==> r.value == Clean(true, Walk(root.names, entry.parts))
  {
    if entry == Path(false, []) {
      return Err(Empty);
    }
    if entry.absolute {
      return Err(Absolute);
    }
    BelowBase([], root.names, entry.parts);
    assert [] + root.names == root.names;
    var normalized := LexicallyNormalize(Join(root, entry));
    if normalized.None? || !StartsWith(normalized.value, root) {
      return Err(Escapes);
    }
    r := Ok(normalized.value);
  }

  /** The directory of a link, or the empty path when there is none. */
  function Parent(path: Clean): Clean {
    if path.names == [] then Clean(false, []) else Clean(path.absolute, path.names[..|path.names| - 1])
  }

  /** Accepts exactly the relative targets that land inside the root when followed from the directory
      of the link. */
  method ValidateSymlinkTarget(root: Clean, link: Clean, target: Path) returns (r: Result<(), Refusal>)
    requires root.absolute
    ensures r == Err(Absolute) <==> target.absolute
    ensures r.Ok? <==>
      && !target.absolute && link.absolute && link.names != []
      && LandsInside(root, link.names[..|link.names| - 1], target.parts)
  {
    if target.absolute {
      return Err(Absolute);
    }
    var parent := Parent(link);
    BelowBase([], parent.names, target.parts);
    assert [] + parent.names == parent.names;
    var normalized := LexicallyNormalize(Join(parent, target));
    if normalized.None? || !StartsWith(normalized.value, root) {
      return Err(Escapes);
    }
    r := Ok(());
  }

  lemma {:induction false} WalkBelow(base: seq<string>, at: seq<string>, parts: seq<Part>)
    requires NeverAbove(parts, |at|)
    ensures Walk(base + at, parts) == base + Walk(at, parts)
    ensures NeverAbove(parts, |base| + |at|)
    decreases |parts|
  {
    if parts != [] {
      assert NeverAbove(parts[1..], |at| + Delta(parts[0]));
      match parts[0]
      case CurDir => WalkBelow(base, at, parts[1..]);
      case Normal(name) =>
        assert (base + at) + [name] == base + (at + [name]);
        WalkBelow(base, at + [name], parts[1..]);
      case ParentDir =>
        assert Up(base + at) == base + Up(at);
        WalkBelow(base, Up(at), parts[1..]);
    }
  }

  /** An entry that never goes above the root is accepted, and lands where it points below the root. */
  lemma EntryThatStaysInside(root: Clean, parts: seq<Part>)
    requires NeverAbove(parts, 0)
    ensures LandsInside(root, root.names, parts)
    ensures Walk(root.names, parts) == root.names + Walk([], parts)
  {
    WalkBelow(root.names, [], parts);
    assert root.names + [] == root.names;
  }

  /** An entry that ends above the root is refused. */
  lemma EntryThatEndsOutside(root: Clean, parts: seq<Part>)
    requires Depth(parts) < 0
    ensures !LandsInside(root, root.names, parts)
  {
    if NeverAbove(parts, |root.names|) {
      WalkLength(root.names, parts);
    }
  }

  lemma UpThenDown(at: seq<string>, back: string, name: string)
    requires at != []
    ensures var parts := [ParentDir, Normal(back), Normal(name)];
      && Walk(at, parts) == Up(at) + [back] + [name]
      && !NeverAbove(parts, 0) && NeverAbove(parts, |at|)
  {
    var parts := [ParentDir, Normal(back), Normal(name)];
    var two, one := [Normal(back), Normal(name)], [Normal(name)];
    assert parts[1..] == two && two[1..] == one && one[1..] == [];
    assert Walk(Up(at) + [back], one) == Up(at) + [back] + [name];
    assert Walk(Up(at), two) == Walk(Up(at) + [back], one);
    assert NeverAbove(one, |at|) && NeverAbove(two, |at| - 1);
    assert !NeverAbove(two, -1);
  }

  /** An entry may leave the root by its last name and come back through it. */
  lemma EntryThatComesBack(root: Clean, name: string)
    requires root.names != []
    ensures var parts := [ParentDir, Normal(root.names[|root.names| - 1]), Normal(name)];
      && !NeverAbove(parts, 0) && LandsInside(root, root.names, parts)
      && Walk(root.names, parts) == root.names + [name]
  {
    var back := root.names[|root.names| - 1];
    UpThenDown(root.names, back, name);
    assert root.names == Up(root.names) + [back];
  }
}
