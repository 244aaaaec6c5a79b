/** From runs of bytes that differ to regions of lines that do. */
module LineRegions {
  import opened Text
  import opened Nodes
  import opened Storage
  import opened Navigation
  import opened Lines
  import opened LineNavigation
  import opened Scripts
  import opened TreeDiff

  // ----- widening -----

  /** No newline in t[i..j). */
  predicate NoNewline(t: Bytes, i: nat, j: nat)
    requires j <= |t|
  {
    forall k | i <= k < j :: t[k] != NL
  }

  /** `p` is where the line that `off` is on starts. */
  predicate IsFloor(t: Bytes, off: nat, p: nat) {
    p <= off <= |t| && (p == 0 || t[p - 1] == NL) && NoNewline(t, p, off)
  }

  /** `c` is where the line after the one `off` is on starts, or the end of the text. */
  predicate IsCeil(t: Bytes, off: nat, c: nat) {
    off <= c <= |t| &&
    if c > off && t[c - 1] == NL then NoNewline(t, off, c - 1) else c == |t| && NoNewline(t, off, |t|)
  }

  lemma FloorUnique(t: Bytes, off: nat, p: nat, q: nat)
    requires IsFloor(t, off, p) && IsFloor(t, off, q)
    ensures p == q
  {
  }

  lemma CeilUnique(t: Bytes, off: nat, c: nat, d: nat)
    requires IsCeil(t, off, c) && IsCeil(t, off, d)
    ensures c == d
  {
  }

  lemma CeilMonotone(t: Bytes, x: nat, c: nat, x': nat, c': nat)
    requires x <= x' && IsCeil(t, x, c) && IsCeil(t, x', c')
    ensures c <= c'
  {
  }

  method FloorOf(st: MemStorage, root: Hash, off: nat, ghost top: nat, ghost t: Bytes) returns (p: nat)
    requires Reads(st, root, top, t)
    ensures IsFloor(t, Min(off, |t|), p)
  {
    LocatingUndone(t, Min(off, |t|));
    FloorFound(t, Min(off, |t|));
    var line := LineOfByte(st, root, off, top, t);
    var start := LocateLine(st, root, line, top, t);
    p := if start.Some? then start.value else 0;
  }

  lemma FloorFound(t: Bytes, off: nat)
    requires off <= |t| && LineStart(t, LineOf(t, off)).Some? && LineStart(t, LineOf(t, off)).value <= off
    ensures IsFloor(t, off, LineStart(t, LineOf(t, off)).value)
  {
    NoneBetween(t, LineStart(t, LineOf(t, off)).value, off);
  }

  method CeilOf(st: MemStorage, root: Hash, off: nat, len: nat, ghost top: nat, ghost t: Bytes) returns (c: nat)
    requires Reads(st, root, top, t) && |t| == len
    ensures IsCeil(t, Min(off, |t|), c)
  {
    var line := LineOfByte(st, root, off, top, t);
    var start := LocateLine(st, root, line + 1, top, t);
    c := if start.Some? then start.value else len;
    if start.Some? {
      NextLineIsCeil(t, Min(off, |t|), c);
    } else {
      NoNextLine(t, Min(off, |t|));
    }
  }

  lemma NoneBetween(t: Bytes, i: nat, j: nat)
    requires i <= j <= |t| && LineOf(t, i) == LineOf(t, j)
    ensures NoNewline(t, i, j)
  {
    CountNewlinesPrefix(t, i, j);
    NoneCountedOnly(t[i..j]);
    forall k | i <= k < j ensures t[k] != NL {
      assert t[i..j][k - i] == t[k];
    }
  }

  lemma NextLineIsCeil(t: Bytes, off: nat, c: nat)
    requires off <= |t| && IsLineStart(t, LineOf(t, off) + 1, c)
    ensures IsCeil(t, off, c)
  {
    if c <= off {
      LineOfMonotone(t, c, off);
    }
    assert t[..c][..c - 1] == t[..c - 1];
    NoneBetween(t, off, c - 1);
  }

  lemma NoNextLine(t: Bytes, off: nat)
    requires off <= |t| && LineStart(t, LineOf(t, off) + 1).None?
    ensures IsCeil(t, off, |t|)
  {
    assert t[..|t|] == t;
    LineOfMonotone(t, off, |t|);
    NoneBetween(t, off, |t|);
  }

  // ----- corresponding lines -----

  /** Shared bytes, and the two offsets of one of them. */
  lemma SharedByte(ta: Bytes, tb: Bytes, x: nat, x': nat, y: nat, y': nat, k: nat)
    requires Same(ta, tb, x, x', y, y') && k < x' - x
    ensures y + k < y' && ta[x + k] == tb[y + k]
  {
    assert |ta[x..x']| == x' - x && |tb[y..y']| == y' - y;
    assert ta[x..x'][k] == ta[x + k] && tb[y..y'][k] == tb[y + k];
  }

  lemma SameParts(ta: Bytes, tb: Bytes, x: nat, x': nat, y: nat, y': nat, m: nat, n: nat)
    requires Same(ta, tb, x, x', y, y') && x <= m <= n <= x'
    ensures y + n - x <= y' && Same(ta, tb, m, n, y + m - x, y + n - x)
  {
    assert |ta[x..x']| == x' - x && |tb[y..y']| == y' - y;
    SliceInside(ta, x, x', m - x, n - x);
    SliceInside(tb, y, y', m - x, n - x);
  }

  lemma NoneShared(ta: Bytes, tb: Bytes, x: nat, x': nat, y: nat, y': nat)
    requires Same(ta, tb, x, x', y, y') && NoNewline(ta, x, x')
    ensures NoNewline(tb, y, y')
  {
    assert |ta[x..x']| == x' - x && |tb[y..y']| == y' - y;
    forall k | y <= k < y' ensures tb[k] != NL {
      SharedByte(ta, tb, x, x', y, y', k - y);
    }
  }

  /** The line after a shared byte starts at the same place on both sides, if it starts among them
      or they reach the ends of both texts. */
  lemma CeilShared(ta: Bytes, tb: Bytes, x: nat, x': nat, y: nat, y': nat, c: nat, d: nat)
    requires Same(ta, tb, x, x', y, y') && IsCeil(ta, x, c) && IsCeil(tb, y, d)
    requires (c <= x' && c > x && ta[c - 1] == NL) || (x' == |ta| && y' == |tb|)
    ensures c - x == d - y
  {
    assert |ta[x..x']| == x' - x && |tb[y..y']| == y' - y;
    var d' := y + c - x;
    if c > x && ta[c - 1] == NL {
      SharedByte(ta, tb, x, x', y, y', c - 1 - x);
      SameParts(ta, tb, x, x', y, y', x, c - 1);
      NoneShared(ta, tb, x, c - 1, y, d' - 1);
    } else {
      NoneShared(ta, tb, x, x', y, y');
    }
    CeilUnique(tb, y, d, d');
  }

  /** And so does the line a shared byte is on. */
  lemma FloorShared(ta: Bytes, tb: Bytes, x: nat, x': nat, y: nat, y': nat, p: nat, q: nat)
    requires Same(ta, tb, x, x', y, y') && IsFloor(ta, x', p) && IsFloor(tb, y', q)
    requires p > x || (x == 0 && y == 0)
    ensures x' - p == y' - q && p >= x && q >= y
  {
    assert |ta[x..x']| == x' - x && |tb[y..y']| == y' - y;
    SameParts(ta, tb, x, x', y, y', p, x');
    var q' := y + p - x;
    if p > x {
      SharedByte(ta, tb, x, x', y, y', p - 1 - x);
    }
    NoneShared(ta, tb, p, x', q', y');
    FloorUnique(tb, y', q, q');
  }

  /** Between two widened runs that do not meet, everything is shared, on both sides alike. */
  lemma GapShared(ta: Bytes, tb: Bytes, x: nat, x': nat, y: nat, y': nat, c: nat, d: nat, p: nat, q: nat)
    requires Same(ta, tb, x, x', y, y')
    requires IsCeil(ta, x, c) && IsCeil(tb, y, d) && IsFloor(ta, x', p) && IsFloor(tb, y', q) && c < p
    ensures Same(ta, tb, c, p, d, q)
  {
    CeilShared(ta, tb, x, x', y, y', c, d);
    FloorShared(ta, tb, x, x', y, y', p, q);
    assert |ta[x..x']| == x' - x && |tb[y..y']| == y' - y;
    SameParts(ta, tb, x, x', y, y', c, p);
  }

  // ----- the regions -----

  /** The start of a line. */
  predicate StartsLine(t: Bytes, i: nat) {
    i <= |t| && (i == 0 || t[i - 1] == NL)
  }

  predicate WholeLines(ta: Bytes, tb: Bytes, r: ChangedRun) {
    StartsLine(ta, r.aFrom) && LineBound(ta, r.aTo) && StartsLine(tb, r.bFrom) && LineBound(tb, r.bTo)
  }

  /** The runs before the i-th are widened and merged into the regions. */
  ghost predicate Widened(ta: Bytes, tb: Bytes, runs: seq<ChangedRun>, i: nat, regions: seq<ChangedRun>) {
    && i <= |runs| && AllFollow(ta, tb, regions) && (forall r | r in regions :: WholeLines(ta, tb, r))
    && (i == 0 <==> regions == [])
    && (i > 0 ==> IsCeil(ta, EndA(runs, i), EndA(regions, |regions|)))
    && (i > 0 ==> IsCeil(tb, EndB(runs, i), EndB(regions, |regions|)))
  }

  /** A run widened to whole lines. */
  ghost predicate Widens(ta: Bytes, tb: Bytes, r: ChangedRun, w: ChangedRun) {
    && IsFloor(ta, r.aFrom, w.aFrom) && IsFloor(tb, r.bFrom, w.bFrom)
    && IsCeil(ta, r.aTo, w.aTo) && IsCeil(tb, r.bTo, w.bTo)
  }

  /** Widened, the second of two neighbouring runs begins no later than the first ends. */
  ghost predicate Touching(ta: Bytes, r: ChangedRun, s: ChangedRun) {
    exists end, from :: IsCeil(ta, r.aTo, end) && IsFloor(ta, s.aFrom, from) && from <= end
  }

  /** The region is the runs from `k` on and before `i`, widened, which touch one after the other. */
  ghost predicate RegionOf(ta: Bytes, tb: Bytes, runs: seq<ChangedRun>, k: nat, i: nat, w: ChangedRun) {
    && k < i <= |runs|
    && IsFloor(ta, runs[k].aFrom, w.aFrom) && IsFloor(tb, runs[k].bFrom, w.bFrom)
    && IsCeil(ta, runs[i - 1].aTo, w.aTo) && IsCeil(tb, runs[i - 1].bTo, w.bTo)
    && forall m | k < m < i :: Touching(ta, runs[m - 1], runs[m])
  }

  /** The first `i` runs are gathered in the regions, each in one, in order. */
  ghost predicate Gathered(ta: Bytes, tb: Bytes, runs: seq<ChangedRun>, i: nat, regions: seq<ChangedRun>)
    decreases |regions|
  {
    if regions == [] then i == 0
    else
      var front, last := regions[..|regions| - 1], regions[|regions| - 1];
      exists k: nat :: RegionOf(ta, tb, runs, k, i, last) && Gathered(ta, tb, runs, k, front)
  }

  lemma GatherNew(ta: Bytes, tb: Bytes, runs: seq<ChangedRun>, i: nat, regions: seq<ChangedRun>, w: ChangedRun)
    requires i < |runs| && Gathered(ta, tb, runs, i, regions) && Widens(ta, tb, runs[i], w)
    ensures Gathered(ta, tb, runs, i + 1, regions + [w])
  {
    assert (regions + [w])[..|regions|] == regions;
    assert RegionOf(ta, tb, runs, i, i + 1, w);
  }

  lemma GatherMore(ta: Bytes, tb: Bytes, runs: seq<ChangedRun>, i: nat, front: seq<ChangedRun>, last: ChangedRun,
      w: ChangedRun)
    requires i < |runs| && Gathered(ta, tb, runs, i, front + [last]) && Widens(ta, tb, runs[i], w)
    requires w.aFrom <= last.aTo
    ensures Gathered(ta, tb, runs, i + 1, front + [last.(aTo := w.aTo, bTo := w.bTo)])
  {
    hide IsCeil, IsFloor;
    var last' := last.(aTo := w.aTo, bTo := w.bTo);
    assert (front + [last])[..|front|] == front && (front + [last'])[..|front|] == front;
    var k: nat :| RegionOf(ta, tb, runs, k, i, last) && Gathered(ta, tb, runs, k, front);
    assert Touching(ta, runs[i - 1], runs[i]);
    assert RegionOf(ta, tb, runs, k, i + 1, last');
  }

  lemma WidenedRun(ta: Bytes, tb: Bytes, r: ChangedRun, w: ChangedRun)
    requires r.Valid() && Widens(ta, tb, r, w)
    ensures w.Valid() && w.aTo <= |ta| && w.bTo <= |tb| && WholeLines(ta, tb, w)
  {
  }

  lemma PushRegion(ta: Bytes, tb: Bytes, runs: seq<ChangedRun>, i: nat, regions: seq<ChangedRun>, w: ChangedRun)
    requires AllFollow(ta, tb, runs) && i < |runs| && Widened(ta, tb, runs, i, regions) && Widens(ta, tb, runs[i], w)
    requires regions == [] || EndA(regions, |regions|) < w.aFrom
    ensures Widened(ta, tb, runs, i + 1, regions + [w])
  {
    assert Follows(ta, tb, runs, i);
    WidenedRun(ta, tb, runs[i], w);
    var x, y := EndA(runs, i), EndB(runs, i);
    if i == 0 {
      FloorShared(ta, tb, 0, runs[0].aFrom, 0, runs[0].bFrom, w.aFrom, w.bFrom);
      SameParts(ta, tb, 0, runs[0].aFrom, 0, runs[0].bFrom, 0, w.aFrom);
    } else {
      GapShared(ta, tb, x, runs[i].aFrom, y, runs[i].bFrom, EndA(regions, |regions|), EndB(regions, |regions|), w.aFrom,
        w.bFrom);
    }
    FollowSnoc(ta, tb, regions, w);
  }

  lemma MergeRegion(ta: Bytes, tb: Bytes, runs: seq<ChangedRun>, i: nat, front: seq<ChangedRun>, last: ChangedRun,
      w: ChangedRun)
    requires AllFollow(ta, tb, runs) && i < |runs| && Widened(ta, tb, runs, i, front + [last])
    requires Widens(ta, tb, runs[i], w)
    ensures last.aTo <= w.aTo && last.bTo <= w.bTo
    ensures Widened(ta, tb, runs, i + 1, front + [last.(aTo := w.aTo, bTo := w.bTo)])
  {
    assert Follows(ta, tb, runs, i);
    WidenedRun(ta, tb, runs[i], w);
    FollowPrefix(ta, tb, front, last);
    assert Follows(ta, tb, front + [last], |front|);
    CeilMonotone(ta, EndA(runs, i), last.aTo, runs[i].aTo, w.aTo);
    CeilMonotone(tb, EndB(runs, i), last.bTo, runs[i].bTo, w.bTo);
    var last' := last.(aTo := w.aTo, bTo := w.bTo);
    FollowSnoc(ta, tb, front, last');
    assert last in front + [last];
    forall r | r in front + [last'] ensures WholeLines(ta, tb, r) {
      if r in front {
        assert r in front + [last];
      }
    }
  }

  /** Behind the last region everything is shared, too. */
  lemma RegionsDone(ta: Bytes, tb: Bytes, runs: seq<ChangedRun>, regions: seq<ChangedRun>)
    requires Script(ta, tb, runs) && Widened(ta, tb, runs, |runs|, regions)
    ensures Script(ta, tb, regions)
  {
    if runs != [] {
      var x, y, c, d := EndA(runs, |runs|), EndB(runs, |runs|), EndA(regions, |regions|), EndB(regions, |regions|);
      CeilShared(ta, tb, x, |ta|, y, |tb|, c, d);
      assert |ta[x..|ta|]| == |ta| - x && |tb[y..|tb|]| == |tb| - y;
      SameParts(ta, tb, x, |ta|, y, |tb|, c, |ta|);
    }
  }

  method Widen(st: MemStorage, a: Hash, b: Hash, r: ChangedRun, aLen: nat, bLen: nat, ghost aTop: nat, ghost bTop: nat,
      ghost ta: Bytes, ghost tb: Bytes) returns (w: ChangedRun)
    requires Reads(st, a, aTop, ta) && Reads(st, b, bTop, tb) && aLen == |ta| && bLen == |tb|
    requires r.Valid() && r.aTo <= |ta| && r.bTo <= |tb|
    ensures Widens(ta, tb, r, w)
  {
    var aFrom := FloorOf(st, a, r.aFrom, aTop, ta);
    var bFrom := FloorOf(st, b, r.bFrom, bTop, tb);
    var aTo := CeilOf(st, a, r.aTo, aLen, aTop, ta);
    var bTo := CeilOf(st, b, r.bTo, bLen, bTop, tb);
    w := Hunk(aFrom, aTo, bFrom, bTo);
  }

  /** The diff of two documents at line bounds: its regions are the changed runs, widened on both sides,
      gathered where they touch; they lie apart, and are themselves a diff of the two texts. */
  method ChangedLineRegions(st: MemStorage, a: Hash, b: Hash, ghost aTop: nat, ghost bTop: nat, ghost ta: Bytes,
      ghost tb: Bytes)
      returns (regions: seq<ChangedRun>, ghost runs: seq<ChangedRun>)
    requires Reads(st, a, aTop, ta) && Reads(st, b, bTop, tb)
    ensures Script(ta, tb, regions) && forall r | r in regions :: WholeLines(ta, tb, r)
    ensures Script(ta, tb, runs) && Gathered(ta, tb, runs, |runs|, regions)
  {
    hide Reads, ReportedOver, IsFloor, IsCeil, Same, WholeLines, Gathered, Widens, StartsLine, LineBound;
    var changed := ChangedRuns(st, a, b, aTop, bTop, ta, tb);
    var aLen, _ := Totals(st, a, aTop, ta);
    var bLen, _ := Totals(st, b, bTop, tb);
    runs := changed;
    assert Widened(ta, tb, runs, 0, []);
    regions := [];
    NothingGathered(ta, tb, runs);
    var i := 0;
    while i < |changed|
      invariant i <= |changed| && Widened(ta, tb, changed, i, regions) && Gathered(ta, tb, changed, i, regions)
    {
      assert Follows(ta, tb, runs, i);
      var w := Widen(st, a, b, changed[i], aLen, bLen, aTop, bTop, ta, tb);
      regions := AddRegion(ta, tb, changed, i, regions, w);
      i := i + 1;
    }
    RegionsDone(ta, tb, runs, regions);
  }

  lemma NothingGathered(ta: Bytes, tb: Bytes, runs: seq<ChangedRun>)
    ensures Gathered(ta, tb, runs, 0, [])
  {
  }

  method AddRegion(ghost ta: Bytes, ghost tb: Bytes, ghost runs: seq<ChangedRun>, ghost i: nat,
      regions: seq<ChangedRun>, w: ChangedRun)
      returns (regions': seq<ChangedRun>)
    requires AllFollow(ta, tb, runs) && i < |runs| && Widened(ta, tb, runs, i, regions) && Widens(ta, tb, runs[i], w)
    requires Gathered(ta, tb, runs, i, regions)
    ensures Widened(ta, tb, runs, i + 1, regions') && Gathered(ta, tb, runs, i + 1, regions')
  {
    hide Gathered;
    if regions != [] {
      var last := regions[|regions| - 1];
      if w.aFrom <= last.aTo {
        ghost var front := regions[..|regions| - 1];
        assert regions == front + [last];
        MergeRegion(ta, tb, runs, i, front, last, w);
        GatherMore(ta, tb, runs, i, front, last, w);
        regions' := regions[|regions| - 1 := last.(aTo := Max(last.aTo, w.aTo), bTo := Max(last.bTo, w.bTo))];
        assert regions' == front + [last.(aTo := w.aTo, bTo := w.bTo)];
        return;
      }
    }
    PushRegion(ta, tb, runs, i, regions, w);
    GatherNew(ta, tb, runs, i, regions, w);
    regions' := regions + [w];
  }
}
