/** Following a growing file: the last lines first, then every later complete line.

    The file changes between any two system calls, so each call is given the content it sees. */
module Tail {
  import opened Basics
  import opened RingBuffer

  type Text = seq<Byte>

  const NEWLINE: Byte := 10

  datatype TailEvent = Line(text: Text) | Reset | ReadError

  /** What one `read_line` call meets. */
  datatype Read = Content(bytes: Text) | Failed

  // ---- Lines --------------------------------------------------------------------------------

  predicate NoNewline(t: Text) {
    forall k :: 0 <= k < |t| ==> t[k] != NEWLINE
  }

  /** A complete line: its only newline is its last byte. */
  predicate IsLine(t: Text) {
    t != [] && t[|t| - 1] == NEWLINE && NoNewline(t[..|t| - 1])
  }

  predicate AllLines(lines: seq<Text>) {
    forall k :: 0 <= k < |lines| ==> IsLine(lines[k])
  }

  lemma FirstNewline(line: Text, t: Text)
    requires IsLine(line) && Prefix(line, t)
    ensures t[|line| - 1] == NEWLINE && forall k :: 0 <= k < |line| - 1 ==> t[k] != NEWLINE
  {
    var body := line[..|line| - 1];
    assert forall k :: 0 <= k < |body| ==> body[k] == t[k];
  }

  lemma NoLinesNoText(lines: seq<Text>)
    requires AllLines(lines)
    ensures Concat(lines) == [] <==> lines == []
    ensures lines != [] ==> IsLine(lines[0]) && Prefix(lines[0], Concat(lines)) && Concat(lines[1..]) == Concat(lines)[|lines[0]|..]
  {
  }

  /** A text splits into complete lines in at most one way, so the lines of a region are pinned
      down by being complete and joining up to it. */
  lemma {:induction false} LinesUnique(a: seq<Text>, b: seq<Text>)
    requires AllLines(a) && AllLines(b) && Concat(a) == Concat(b)
    ensures a == b
  {
    NoLinesNoText(a);
    NoLinesNoText(b);
    if a != [] {
      var t := Concat(a);
      FirstNewline(a[0], t);
      FirstNewline(b[0], t);
      assert |a[0]| == |b[0]|;
      LinesUnique(a[1..], b[1..]);
      assert a == [a[0]] + a[1..] && b == [b[0]] + b[1..];
    }
  }

  function LineEvents(lines: seq<Text>): (es: seq<TailEvent>)
    ensures |es| == |lines| && forall k :: 0 <= k < |es| ==> es[k] == Line(lines[k])
  {
    seq(|lines|, k requires 0 <= k < |lines| => Line(lines[k]))
  }

  /** These lines sent after those events, and an error if one ended it. */
  function Sent(before: seq<TailEvent>, lines: seq<Text>, failed: bool): seq<TailEvent> {
    if failed then before + LineEvents(lines) + [ReadError] else before + LineEvents(lines)
  }

  lemma SentOneMore(before: seq<TailEvent>, lines: seq<Text>, line: Text)
    ensures Sent(before, lines + [line], false) == Sent(before, lines, false) + [Line(line)]
  {
    assert LineEvents(lines + [line]) == LineEvents(lines) + [Line(line)];
  }

  lemma SentNothing(before: seq<TailEvent>)
    ensures Sent(before, [], false) == before && Sent(before, [], true) == before + [ReadError]
  {
    assert LineEvents([]) == [];
  }

  lemma InitialSent(seen: seq<Text>, n: nat, lines: seq<Text>)
    requires lines == LastN(seen, n)
    ensures |lines| == Min(|seen|, n) && Sent([], seen[|seen| - |lines|..], false) == LineEvents(lines)
  {
    assert seen[|seen| - |lines|..] == lines;
    assert [] + LineEvents(lines) == LineEvents(lines);
  }

  lemma SentMore(before: seq<TailEvent>, seen: seq<Text>, skipped: nat, lines: seq<Text>, failed: bool)
    requires skipped <= |seen|
    ensures Sent(Sent(before, seen[skipped..], false), lines, failed) == Sent(before, (seen + lines)[skipped..], failed)
  {
    assert (seen + lines)[skipped..] == seen[skipped..] + lines;
    assert LineEvents(seen[skipped..] + lines) == LineEvents(seen[skipped..]) + LineEvents(lines);
  }

  // ---- Views of the file ------------------------------------------------------------------------

  /** The content of the `k`-th read of a burst; the file stays as it last was afterwards. */
  function ViewAt(views: seq<Read>, k: nat): Read
    requires views != []
  {
    views[if k < |views| then k else |views| - 1]
  }

  /** The file only grows: every content seen extends what came before it. */
  ghost predicate Growing(start: Text, views: seq<Read>) {
    && (forall k :: 0 <= k < |views| && views[k].Content? ==> Prefix(start, views[k].bytes))
    && (forall k, l :: 0 <= k < l < |views| && views[k].Content? && views[l].Content? ==>
          Prefix(views[k].bytes, views[l].bytes))
  }

  /** The file as it was before the `k`-th read of a burst whose earlier reads succeeded. */
  ghost predicate SeenBefore(start: Text, views: seq<Read>, k: nat, file: Text)
    requires views != []
  {
    if k == 0 then file == start else ViewAt(views, k - 1) == Content(file)
  }

  lemma GrowsInto(start: Text, views: seq<Read>, k: nat, file: Text)
    requires views != [] && Growing(start, views) && SeenBefore(start, views, k, file)
    requires ViewAt(views, k).Content?
    ensures Prefix(file, ViewAt(views, k).bytes) && Prefix(start, ViewAt(views, k).bytes)
    ensures |ViewAt(views, k).bytes| <= Longest(views)
  {
    LongestBounds(views, if k < |views| then k else |views| - 1);
  }

  lemma NoNewlineBefore(m: Text, file: Text, pos: nat)
    requires Prefix(m, file) && pos <= |m| && NoNewline(file[pos..])
    ensures NoNewline(m[pos..])
  {
    assert forall k :: 0 <= k < |m[pos..]| ==> m[pos..][k] == file[pos..][k];
  }

  /** Some read sees the file longer than this. */
  ghost predicate Beyond(views: seq<Read>, at: nat) {
    exists k :: 0 <= k < |views| && views[k].Content? && |views[k].bytes| > at
  }

  /** The file is shorter than it was when its length was last asked for. */
  predicate Shrunk(meta: Read, lastLen: nat) {
    meta.Content? && |meta.bytes| < lastLen
  }

  ghost function Longest(views: seq<Read>): nat {
    if views == [] then 0
    else
      var rest := Longest(views[1..]);
      if views[0].Content? && |views[0].bytes| > rest then |views[0].bytes| else rest
  }

  lemma {:induction false} LongestBounds(views: seq<Read>, k: nat)
    requires k < |views| && views[k].Content?
    ensures |views[k].bytes| <= Longest(views)
  {
    if k > 0 {
      LongestBounds(views[1..], k - 1);
    }
  }

  /** Reading one more complete line keeps the lines in step with the position. */
  lemma NextLine(file: Text, c: Text, pos: nat, seen: seq<Text>, line: Text)
    requires Prefix(file, c) && pos <= |file| && Concat(seen) == file[..pos]
    requires pos + |line| <= |c| && line == c[pos..pos + |line|]
    ensures Concat(seen) == c[..pos]
    ensures Concat(seen + [line]) == c[..pos + |line|]
  {
    ConcatSnoc(seen, line);
    assert file[..pos] == c[..pos];
  }

  method ReadLine(c: Text, pos: nat) returns (line: Text)
    requires pos <= |c|
    ensures pos + |line| <= |c| && line == c[pos..pos + |line|]
    ensures forall k :: 0 <= k < |line| - 1 ==> line[k] != 10
    ensures line == [] || line[|line| - 1] != 10 ==> line == c[pos..]
    ensures IsLine(line) || (line == c[pos..] && NoNewline(line))
  {
    var end := pos;
    while end < |c| && c[end] != NEWLINE
      invariant pos <= end <= |c| && forall k :: pos <= k < end ==> c[k] != NEWLINE
    {
      end := end + 1;
    }
    if end < |c| {
      line := c[pos..end + 1];
      assert line[..|line| - 1] == c[pos..end];
    } else {
      line := c[pos..];
    }
  }

  // ---- The follower -----------------------------------------------------------------------------

  class Tailer {
    var pos: nat
    var lastLen: nat
    var events: seq<TailEvent>
    var stopped: bool
    /** All complete lines of the file from offset zero to `pos`, and how many of them were left out
        because only the last `n` were wanted. */
    ghost var seen: seq<Text>
    ghost var skipped: nat
    /** The events up to and including the last reset. */
    ghost var before: seq<TailEvent>
    /** The file as last read. */
    ghost var file: Text

    /** Set when pushing into a ring buffer without capacity panicked. */
    var panicked: bool

    /** `pos` is on a line boundary of the file as last read. */
    ghost predicate OnBoundary()
      reads this
    {
      pos <= |file| && AllLines(seen) && Concat(seen) == file[..pos]
    }

    /** The events since the last reset are the wanted lines up to `pos`, in order and once each,
        and no complete line of the file as last read is left. */
    ghost predicate Valid()
      reads this
    {
      && OnBoundary() && EventsMatch()
      && (!stopped ==> lastLen <= |file| && NoNewline(file[pos..]))
    }

    ghost predicate EventsMatch()
      reads this
    {
      && skipped <= |seen|
      && (before == [] || before[|before| - 1] == Reset)
      && events == Sent(before, seen[skipped..], stopped)
    }

    constructor ()
      ensures pos == 0 && events == [] && !stopped && !panicked
      ensures seen == [] && skipped == 0 && before == [] && file == []
    {
      pos, lastLen, events, stopped, panicked := 0, 0, [], false, false;
      seen, skipped, before, file := [], 0, [], [];
    }

    /** Reads one line at `pos` and moves past it, unless it is still incomplete. A position past the
        end, which a cut file leaves behind, reads nothing. */
    method TakeLine(c: Text) returns (line: Text)
      modifies `pos, `seen, `file
      ensures file == c
      ensures if line == [] then pos == old(pos) && seen == old(seen) && (pos <= |c| ==> NoNewline(c[pos..]))
        else IsLine(line) && pos == old(pos) + |line| <= |c| && line == c[old(pos)..pos] && seen == old(seen) + [line]
      ensures old(OnBoundary()) && Prefix(old(file), c) ==> OnBoundary()
    {
      ghost var was := file;
      file := c;
      if pos > |c| {
        return [];
      }
      var text := ReadLine(c, pos);
      if pos <= |was| && Concat(seen) == was[..pos] && Prefix(was, c) {
        NextLine(was, c, pos, seen, text);
      }
      if text == [] || text[|text| - 1] != NEWLINE {
        return [];
      }
      pos := pos + |text|;
      seen := seen + [text];
      line := text;
    }

    /** The first scan: the last `n` complete lines. Pushing panics exactly when no lines are
        asked for and a complete one is met. */
    method FirstScan(n: nat, meta: Text, views: seq<Read>)
      requires pos == 0 && events == [] && !stopped && !panicked && seen == [] && skipped == 0 && before == []
      requires views != [] && Growing(meta, views)
      modifies this
      ensures !panicked ==> Valid() && before == []
      ensures !panicked && stopped ==> events == [ReadError]
      ensures !panicked && !stopped ==>
        lastLen == |meta| && Prefix(meta, file) && |seen| - skipped == Min(|seen|, n)
      ensures file == meta || Content(file) in views
      ensures !panicked && !stopped ==> Content(file) in views
      ensures stopped ==> Failed in views
      ensures panicked <==> n == 0 && views[0].Content? && !NoNewline(views[0].bytes)
    {
      lastLen := |meta|;
      file := meta;
      var initialLines := new RingBuffer<Text>(n);
      ScanLines(initialLines, views);
      if panicked || stopped {
        return;
      }
      SendInitial(initialLines);
    }

    /** Sends the remembered lines, the last of those seen. */
    method SendInitial(initialLines: RingBuffer<Text>)
      requires initialLines.Valid() && initialLines.pushed == seen && events == [] && before == [] && !stopped
      modifies `events, `skipped
      ensures EventsMatch() && |seen| - skipped == Min(|seen|, initialLines.capacity)
    {
      var lines := Owned(initialLines, []);
      skipped := |seen| - |lines|;
      InitialSent(seen, initialLines.capacity, lines);
      SendAll(lines);
    }

    /** The loop of the first scan. */
    method ScanLines(initialLines: RingBuffer<Text>, views: seq<Read>)
      requires OnBoundary() && seen == [] && pos == 0 && events == [] && !stopped && !panicked
      requires views != [] && Growing(file, views)
      requires initialLines.Valid() && initialLines.pushed == []
      modifies this, initialLines
      ensures OnBoundary() && initialLines.Valid()
      ensures lastLen == old(lastLen) && before == old(before) && Prefix(old(file), file)
      ensures file == old(file) || Content(file) in views
      ensures !panicked && !stopped ==> Content(file) in views
      ensures stopped ==> Failed in views
      ensures panicked <==> initialLines.capacity == 0 && views[0].Content? && !NoNewline(views[0].bytes)
      ensures stopped ==> events == [ReadError] && skipped == |seen|
      ensures !panicked && !stopped ==>
        events == [] && initialLines.pushed == seen && NoNewline(file[pos..])
    {
      var k := 0;
      while true
        invariant initialLines.Valid() && initialLines.pushed == seen && OnBoundary()
        invariant events == [] && !stopped && !panicked && lastLen == old(lastLen) && before == old(before)
        invariant Prefix(old(file), file) && 0 <= k && SeenBefore(old(file), views, k, file)
        invariant file == old(file) || Content(file) in views
        invariant (k > 0 ==> initialLines.capacity > 0) && (k == 0 ==> pos == 0)
        decreases Longest(views) - pos
      {
        var view := ViewAt(views, k);
        if view.Failed? {
          events, stopped := [ReadError], true;
          skipped := |seen|;
          return;
        }
        GrowsInto(old(file), views, k, file);
        assert k == 0 ==> view.bytes[pos..] == view.bytes;
        var more := ScanOne(initialLines, view.bytes);
        if !more {
          return;
        }
        k := k + 1;
      }
    }

    /** One turn of it: remembers the next complete line, if there is one and room to remember any. */
    method ScanOne(initialLines: RingBuffer<Text>, c: Text) returns (more: bool)
      requires OnBoundary() && Prefix(file, c) && !panicked
      requires initialLines.Valid() && initialLines.pushed == seen
      modifies `pos, `seen, `file, `panicked, initialLines
      ensures OnBoundary() && initialLines.Valid() && file == c
      ensures more || panicked <==> !NoNewline(c[old(pos)..])
      ensures more ==> !panicked && initialLines.capacity > 0 && pos > old(pos)
      ensures panicked ==> initialLines.capacity == 0
      ensures !panicked ==> initialLines.pushed == seen
      ensures !more && !panicked ==> pos == old(pos)
    {
      ghost var was := pos;
      var line := TakeLine(c);
      if line == [] {
        return false;
      }
      assert c[was..][|line| - 1] == line[|line| - 1] == NEWLINE;
      panicked := initialLines.Push(line);
      more := !panicked;
    }

    method SendAll(lines: seq<Text>)
      requires events == []
      modifies `events
      ensures events == LineEvents(lines)
    {
      for j := 0 to |lines|
        invariant events == LineEvents(lines[..j])
      {
        events := events + [Line(lines[j])];
      }
      assert lines[..|lines|] == lines;
    }

    /** The poll can tell what happened: the file only grew, or it is seen to be shorter than when its
        length was last asked for. */
    ghost predicate CanFollow(meta: Text)
      reads this
    {
      Prefix(file, meta) || |meta| < lastLen
    }

    /** One poll. `meta` is the file when its length is asked for, `views` what the reads then see. A
        reset is sent exactly when that length is below the one last asked for, so a file cut below what
        was read, but not below that, goes unnoticed. Where the poll can tell what happened, every
        complete line that was there has then been sent. */
    method Poll(meta: Read, views: seq<Read>) returns (ghost lines: seq<Text>)
      requires Valid() && !stopped && views != []
      requires meta.Content? ==> Growing(meta.bytes, views)
      modifies `events, `stopped, `pos, `lastLen, `seen, `skipped, `before, `file
      ensures events == Sent(if Shrunk(meta, old(lastLen)) then old(events) + [Reset] else old(events), lines, stopped)
      ensures meta.Failed? ==> stopped
      ensures stopped ==> meta.Failed? || Failed in views
      ensures lines == [] && !Shrunk(meta, old(lastLen)) ==> pos == old(pos)
      ensures seen == (if Shrunk(meta, old(lastLen)) then [] else old(seen)) + lines
      ensures skipped == if Shrunk(meta, old(lastLen)) then 0 else old(skipped)
      ensures before == if Shrunk(meta, old(lastLen)) then old(events) + [Reset] else old(before)
      ensures meta.Failed? || old(CanFollow(meta.bytes)) ==> Valid()
      ensures meta.Content? && old(CanFollow(meta.bytes)) ==> Prefix(meta.bytes, file)
      ensures meta.Content? && old(CanFollow(meta.bytes)) && !stopped && pos <= |meta.bytes| ==> NoNewline(meta.bytes[pos..])
      ensures lines != [] ==> Beyond(views, if Shrunk(meta, old(lastLen)) then 0 else old(pos))
      ensures file == old(file) || Content(file) == meta || Content(file) in views
    {
      lines := [];
      SentNothing(events);
      if meta.Failed? {
        SentMore(before, seen, skipped, [], true);
        assert seen + [] == seen;
        events, stopped := events + [ReadError], true;
        return;
      }
      if |meta.bytes| == lastLen {
        assert Prefix(file, meta.bytes) ==> meta.bytes == file;
        return;
      }
      Note(meta.bytes);
      lines := CatchUp(views);
    }

    /** Reads on from `pos`, with the account of what was sent kept. */
    method CatchUp(views: seq<Read>) returns (ghost lines: seq<Text>)
      requires EventsMatch() && !stopped && views != [] && Growing(file, views) && lastLen == |file|
      modifies `events, `stopped, `pos, `seen, `file
      ensures events == Sent(old(events), lines, stopped) && seen == old(seen) + lines
      ensures old(OnBoundary()) ==> Valid()
      ensures !stopped && pos <= old(|file|) ==> NoNewline(old(file)[pos..])
      ensures Prefix(old(file), file) && (file == old(file) || Content(file) in views)
      ensures lines != [] ==> Beyond(views, old(pos))
      ensures stopped ==> Failed in views
      ensures lines == [] ==> pos == old(pos)
    {
      ghost var shown, was := seen, file;
      lines := ReadOn(views);
      SentMore(before, shown, skipped, lines, stopped);
      if !stopped && pos <= |was| {
        NoNewlineBefore(was, file, pos);
      }
    }

    /** Takes note of a new length, with a reset if it went down. */
    method Note(meta: Text)
      requires EventsMatch() && !stopped
      modifies `events, `pos, `lastLen, `seen, `skipped, `before, `file
      ensures EventsMatch() && lastLen == |meta| && file == meta
      ensures old(OnBoundary()) && old(CanFollow(meta)) ==> OnBoundary()
      ensures if |meta| < old(lastLen)
        then events == old(events) + [Reset] && pos == 0 && seen == [] && skipped == 0 && before == events
        else events == old(events) && pos == old(pos) && seen == old(seen) && skipped == old(skipped) && before == old(before)
    {
      if |meta| < lastLen {
        events := events + [Reset];
        pos := 0;
        seen, skipped, before := [], 0, events;
        SentNothing(events);
      }
      lastLen := |meta|;
      Reread(meta);
    }

    /** Looking at a grown file, the position stays on the same boundary. */
    ghost method Reread(c: Text)
      modifies `file
      ensures file == c
      ensures old(OnBoundary()) && Prefix(old(file), c) ==> OnBoundary()
      ensures pos == 0 && seen == [] ==> OnBoundary()
    {
      ghost var was := file;
      file := c;
      if pos <= |was| && Concat(seen) == was[..pos] && Prefix(was, c) {
        NextLine(was, c, pos, seen, []);
      }
    }

    /** The inner loop of a poll: sends every complete line from `pos` on. */
    method ReadOn(views: seq<Read>) returns (ghost lines: seq<Text>)
      requires !stopped && views != [] && Growing(file, views)
      modifies `events, `stopped, `pos, `seen, `file
      ensures events == Sent(old(events), lines, stopped)
      ensures seen == old(seen) + lines
      ensures old(OnBoundary()) ==> OnBoundary()
      ensures !stopped && pos <= |file| ==> NoNewline(file[pos..])
      ensures Prefix(old(file), file) && (file == old(file) || Content(file) in views)
      ensures lines != [] ==> Beyond(views, old(pos))
      ensures stopped ==> Failed in views
      ensures lines == [] ==> pos == old(pos)
    {
      lines := [];
      SentNothing(events);
      var k := 0;
      while true
        invariant !stopped && 0 <= k && pos >= old(pos)
        invariant events == Sent(old(events), lines, false) && seen == old(seen) + lines
        invariant old(OnBoundary()) ==> OnBoundary()
        invariant Prefix(old(file), file) && SeenBefore(old(file), views, k, file)
        invariant file == old(file) || Content(file) in views
        invariant lines != [] ==> Beyond(views, old(pos))
        invariant lines == [] ==> pos == old(pos)
        decreases Longest(views) - pos
      {
        var view := ViewAt(views, k);
        if view.Failed? {
          events, stopped := events + [ReadError], true;
          return;
        }
        GrowsInto(old(file), views, k, file);
        ghost var done := lines;
        var line := TakeLine(view.bytes);
        if line == [] {
          return;
        }
        lines := done + [line];
        SentOneMore(old(events), done, line);
        assert Beyond(views, old(pos)) by {
          assert view == views[if k < |views| then k else |views| - 1];
        }
        events := events + [Line(line)];
        k := k + 1;
      }
    }
  }

  // ---- A whole sequence of polls --------------------------------------------------------------------

  /** A file cut below what was read, but not below the length last asked for: no reset is sent, and
      the position stays behind its end. */
  method CutGoesUnnoticed(t: Tailer, cut: Text)
    requires t.Valid() && !t.stopped && t.lastLen <= |cut| < t.pos
    modifies t
    ensures t.events == old(t.events) && t.pos == old(t.pos) && !t.stopped
  {
    var views := [Content(cut)];
    assert !Beyond(views, t.pos);
    var lines := t.Poll(Content(cut), views);
    SentNothing(old(t.events));
  }

  lemma LastIsKept(line: Text, pos: nat)
    requires IsLine(line) && pos < |line|
    ensures !NoNewline(line[pos..])
  {
    assert line[pos..][|line| - 1 - pos] == NEWLINE;
  }

  /** It can come to that: a first scan asks for the length of an empty file and then reads a line. */
  method ScanBehindTheLength(line: Text) returns (t: Tailer)
    requires IsLine(line)
    ensures t.Valid() && !t.stopped && t.lastLen == 0 && t.pos == |line| && t.file == line
  {
    t := new Tailer();
    var none: Text := [];
    t.FirstScan(1, none, [Content(line)]);
    if t.pos < |line| {
      LastIsKept(line, t.pos);
    }
  }

  /** The file as its length is asked for, and as the reads after that see it. */
  datatype Glance = Glance(meta: Read, views: seq<Read>)

  /** A read sees the file at a length between these marks. */
  ghost predicate SeesBetween(r: Read, whole: Text, low: nat, high: nat) {
    r.Content? ==> low <= |r.bytes| <= high <= |whole| && r.bytes == whole[..|r.bytes|]
  }

  ghost predicate GlanceBetween(g: Glance, whole: Text, low: nat, high: nat) {
    && SeesBetween(g.meta, whole, low, high) && g.views != []
    && (forall k :: 0 <= k < |g.views| ==> SeesBetween(g.views[k], whole, low, high))
    && (g.meta.Content? ==> Growing(g.meta.bytes, g.views))
  }

  ghost predicate GlanceAt(whole: Text, marks: seq<nat>, glances: seq<Glance>, k: nat)
    requires k < |glances| && |marks| == |glances| + 1
  {
    marks[k] <= marks[k + 1] <= |whole| && GlanceBetween(glances[k], whole, marks[k], marks[k + 1])
  }

  /** Everything ever seen of the file is a beginning of `whole`, longer and longer from poll to poll. */
  ghost predicate AppendOnly(whole: Text, marks: seq<nat>, glances: seq<Glance>) {
    |marks| == |glances| + 1 && forall k :: 0 <= k < |glances| ==> GlanceAt(whole, marks, glances, k)
  }

  lemma GrownPrefix(a: Text, b: Text, whole: Text)
    requires |a| <= |b| <= |whole| && a == whole[..|a|] && b == whole[..|b|]
    ensures Prefix(a, b)
  {
  }

  /** What was sent after following a growing file since a first scan that found `first` lines. */
  ghost predicate Followed(t: Tailer, whole: Text, first: nat, n: nat)
    reads t
  {
    && first <= |t.seen| && AllLines(t.seen)
    && t.pos <= |t.file| <= |whole| && Concat(t.seen) == whole[..t.pos]
    && t.events == Sent([], t.seen[first - Min(first, n)..], t.stopped)
  }

  lemma ValidIsFollowed(t: Tailer, whole: Text, first: nat, n: nat)
    requires t.Valid() && t.before == [] && t.skipped == first - Min(first, n) && first <= |t.seen|
    requires |t.file| <= |whole| && t.file == whole[..|t.file|]
    ensures Followed(t, whole, first, n)
  {
    assert t.file[..t.pos] == whole[..t.pos];
  }

  /** The first poll and each later one keep the tail on a growing file. */
  method FollowOnce(t: Tailer, g: Glance, ghost whole: Text, ghost low: nat, ghost high: nat, ghost first: nat, ghost n: nat)
    requires t.Valid() && !t.panicked && !t.stopped && t.before == []
    requires t.skipped == first - Min(first, n) && first <= |t.seen|
    requires SeesBetween(Content(t.file), whole, 0, low) && low <= high <= |whole| && GlanceBetween(g, whole, low, high)
    modifies t
    ensures t.Valid() && t.before == [] && t.skipped == first - Min(first, n) && first <= |t.seen| && !t.panicked
    ensures SeesBetween(Content(t.file), whole, 0, high)
    ensures !t.stopped ==> low <= |t.file|
  {
    if g.meta.Content? {
      GrownPrefix(t.file, g.meta.bytes, whole);
    }
    var lines := t.Poll(g.meta, g.views);
  }

  /** On a file that only grows, over any number of polls: the last `n` of the `first` complete lines
      that the first scan finds, then every later complete line, each once and in order, up to those
      there at the last poll; and an error ends it. If the first scan fails nothing but the error is sent. */
  method Follow(n: nat, glances: seq<Glance>, ghost whole: Text, ghost marks: seq<nat>)
    returns (t: Tailer, ghost first: Option<nat>)
    requires glances != [] && glances[0].meta.Content? && glances[0].views != [] && AppendOnly(whole, marks, glances)
    ensures t.panicked <==> n == 0 && glances[0].views[0].Content? && !NoNewline(glances[0].views[0].bytes)
    ensures !t.panicked && first.None? ==> t.stopped && t.events == [ReadError]
    ensures !t.panicked && first.Some? ==> Followed(t, whole, first.value, n)
    ensures !t.panicked && !t.stopped ==>
      first.Some? && marks[|glances| - 1] <= |t.file| <= |whole| && t.pos <= |t.file| && NoNewline(whole[t.pos..|t.file|])
  {
    t := new Tailer();
    first := None;
    assert GlanceAt(whole, marks, glances, 0);
    t.FirstScan(n, glances[0].meta.bytes, glances[0].views);
    if t.panicked || t.stopped {
      return;
    }
    first := Some(|t.seen|);
    for k := 1 to |glances|
      invariant fresh(t) && t.Valid() && !t.panicked && !t.stopped && t.before == []
      invariant first.Some? && first.value <= |t.seen| && t.skipped == first.value - Min(first.value, n)
      invariant SeesBetween(Content(t.file), whole, 0, marks[k]) && marks[k - 1] <= |t.file|
    {
      assert GlanceAt(whole, marks, glances, k);
      FollowOnce(t, glances[k], whole, marks[k], marks[k + 1], first.value, n);
      if t.stopped {
        ValidIsFollowed(t, whole, first.value, n);
        return;
      }
    }
    ValidIsFollowed(t, whole, first.value, n);
    assert whole[t.pos..|t.file|] == t.file[t.pos..];
  }
}
