/** Line hunks between two stored trees: a patch for a document already at hand. */
module LineHunks {
  import opened Text
  import opened Nodes
  import opened Storage
  import opened Chunker
  import opened Navigation
  import opened Lines
  import opened LineNavigation
  import opened Scripts
  import opened SequenceDiff
  import opened ByteEdits
  import opened TreeDiff
  import opened LineRegions

  /** Lines [oldFrom, oldFrom + oldCount) became lines [newFrom, newFrom + newCount), with both texts. */
  datatype LineHunk = LineHunk(oldFrom: nat, oldCount: nat, newFrom: nat, newCount: nat, oldText: Bytes, newText: Bytes)
  {
    function AsHunk(): Hunk {
      Hunk(oldFrom, oldFrom + oldCount, newFrom, newFrom + newCount)
    }
  }

  function AsHunks(ls: seq<LineHunk>): (hs: seq<Hunk>)
    ensures |hs| == |ls|
  {
    seq(|ls|, i requires 0 <= i < |ls| => ls[i].AsHunk())
  }

  /** A hunk carries exactly the lines it names on each side. */
  predicate Carries(al: seq<Bytes>, bl: seq<Bytes>, h: LineHunk) {
    && h.oldFrom + h.oldCount <= |al| && h.oldText == Concat(al[h.oldFrom..h.oldFrom + h.oldCount])
    && h.newFrom + h.newCount <= |bl| && h.newText == Concat(bl[h.newFrom..h.newFrom + h.newCount])
  }

  ghost predicate AllCarry(al: seq<Bytes>, bl: seq<Bytes>, hs: seq<LineHunk>) {
    forall h | h in hs :: Carries(al, bl, h)
  }

  /** Shared bytes between line bounds are shared lines. */
  lemma SameBytesSameLines(ta: Bytes, tb: Bytes, x: nat, x': nat, y: nat, y': nat)
    requires Same(ta, tb, x, x', y, y')
    requires LineBound(ta, x) && LineBound(ta, x') && LineBound(tb, y) && LineBound(tb, y')
    ensures Same(SplitLines(ta), SplitLines(tb), LineIndex(ta, x), LineIndex(ta, x'), LineIndex(tb, y),
      LineIndex(tb, y'))
  {
    LinesOfPart(ta, x, x');
    LinesOfPart(tb, y, y');
  }

  /** The line number of the start of a line is how many lines lie before it. */
  lemma LineNumberIsIndex(t: Bytes, i: nat)
    requires StartsLine(t, i)
    ensures LineOf(t, i) == LineIndex(t, i)
  {
    var ls := SplitLines(t[..i]);
    SplitJoins(t[..i]);
    LinesCounted(ls);
    if i > 0 {
      LastTerminated(ls);
    }
  }

  /** The regions before the i-th are diffed into line hunks. */
  ghost predicate Diffed(ta: Bytes, tb: Bytes, regions: seq<ChangedRun>, i: nat, out: seq<LineHunk>) {
    && i <= |regions| && EndA(regions, i) <= |ta| && EndB(regions, i) <= |tb|
    && ScriptUpTo(SplitLines(ta), SplitLines(tb), AsHunks(out), LineIndex(ta, EndA(regions, i)),
         LineIndex(tb, EndB(regions, i)))
    && AllCarry(SplitLines(ta), SplitLines(tb), out) && (i == 0 ==> out == [])
  }

  lemma NothingDiffed(ta: Bytes, tb: Bytes, regions: seq<ChangedRun>)
    ensures Diffed(ta, tb, regions, 0, [])
  {
    assert ta[..0] == [] && tb[..0] == [];
    assert SplitLines(ta)[0..0] == SplitLines(tb)[0..0];
  }

  /** Hunks of a region's lines, numbered from the region's first lines. */
  ghost predicate Numbered(ta: Bytes, tb: Bytes, r: ChangedRun, more: seq<LineHunk>)
    requires r.aFrom <= r.aTo <= |ta| && r.bFrom <= r.bTo <= |tb|
  {
    && AsHunks(more) == TreeDiff.Place(LineDiff(ta[r.aFrom..r.aTo], tb[r.bFrom..r.bTo]), LineIndex(ta, r.aFrom),
         LineIndex(tb, r.bFrom))
    && AllCarry(SplitLines(ta), SplitLines(tb), more)
  }

  lemma {:induction false} DiffedStep(ta: Bytes, tb: Bytes, regions: seq<ChangedRun>, i: nat, out: seq<LineHunk>,
      more: seq<LineHunk>)
    requires AllFollow(ta, tb, regions) && (forall r | r in regions :: WholeLines(ta, tb, r))
    requires i < |regions| && Diffed(ta, tb, regions, i, out)
    requires var r := regions[i];
      r.aFrom <= r.aTo <= |ta| && r.bFrom <= r.bTo <= |tb| && Numbered(ta, tb, r, more)
    ensures Diffed(ta, tb, regions, i + 1, out + more)
  {
    var r := regions[i];
    assert Follows(ta, tb, regions, i) && WholeLines(ta, tb, r) && r.Valid();
    hide AllFollow, LineDiff, SplitLines, Script, LineIndex, Follows, Same, WholeLines, AllCarry, ScriptUpTo, AsHunks,
      TreeDiff.Place;
    GapLines(ta, tb, regions, i);
    RegionScript(ta, tb, r);
    HunksBehind(SplitLines(ta), SplitLines(tb), out, LineIndex(ta, EndA(regions, i)), LineIndex(tb, EndB(regions, i)),
      LineIndex(ta, r.aFrom), LineIndex(ta, r.aTo), LineIndex(tb, r.bFrom), LineIndex(tb, r.bTo),
      LineDiff(ta[r.aFrom..r.aTo], tb[r.bFrom..r.bTo]), more);
  }

  lemma {:induction false} HunksBehind(al: seq<Bytes>, bl: seq<Bytes>, out: seq<LineHunk>, x: nat, y: nat, i: nat,
      i': nat, j: nat, j': nat, inner: seq<Hunk>, more: seq<LineHunk>)
    requires ScriptUpTo(al, bl, AsHunks(out), x, y) && Same(al, bl, x, i, y, j)
    requires i <= i' <= |al| && j <= j' <= |bl| && Script(al[i..i'], bl[j..j'], inner)
    requires out == [] || x < i
    requires AsHunks(more) == TreeDiff.Place(inner, i, j) && AllCarry(al, bl, out) && AllCarry(al, bl, more)
    ensures ScriptUpTo(al, bl, AsHunks(out + more), i', j') && AllCarry(al, bl, out + more)
  {
    hide AllFollow, Same, AllCarry, AsHunks, TreeDiff.Place;
    NestBehind(al, bl, AsHunks(out), x, y, i, i', j, j', inner);
    MoreHunks(al, bl, out, more);
  }

  lemma MoreHunks(al: seq<Bytes>, bl: seq<Bytes>, out: seq<LineHunk>, more: seq<LineHunk>)
    requires AllCarry(al, bl, out) && AllCarry(al, bl, more)
    ensures AsHunks(out + more) == AsHunks(out) + AsHunks(more) && AllCarry(al, bl, out + more)
  {
  }

  /** The lines between two regions are shared; between regions that are apart there are some. */
  lemma GapLines(ta: Bytes, tb: Bytes, regions: seq<ChangedRun>, i: nat)
    requires AllFollow(ta, tb, regions) && (forall r | r in regions :: WholeLines(ta, tb, r)) && i < |regions|
    ensures EndA(regions, i) <= |ta| && EndB(regions, i) <= |tb| && regions[i].aFrom <= |ta| && regions[i].bFrom <= |tb|
    ensures Same(SplitLines(ta), SplitLines(tb), LineIndex(ta, EndA(regions, i)), LineIndex(ta, regions[i].aFrom),
      LineIndex(tb, EndB(regions, i)), LineIndex(tb, regions[i].bFrom))
    ensures i > 0 ==> LineIndex(ta, EndA(regions, i)) < LineIndex(ta, regions[i].aFrom)
  {
    var r := regions[i];
    assert Follows(ta, tb, regions, i) && WholeLines(ta, tb, r);
    EndBound(ta, tb, regions, i);
    SameBytesSameLines(ta, tb, EndA(regions, i), r.aFrom, EndB(regions, i), r.bFrom);
    if i > 0 {
      LinesOfPart(ta, EndA(regions, i), r.aFrom);
    }
  }

  lemma {:induction false} NestBehind<T>(al: seq<T>, bl: seq<T>, hs: seq<Hunk>, x: nat, y: nat, i: nat, i': nat, j: nat,
      j': nat, inner: seq<Hunk>)
    requires ScriptUpTo(al, bl, hs, x, y) && Same(al, bl, x, i, y, j)
    requires i <= i' <= |al| && j <= j' <= |bl| && Script(al[i..i'], bl[j..j'], inner)
    requires hs == [] || x < i
    ensures ScriptUpTo(al, bl, hs + TreeDiff.Place(inner, i, j), i', j')
  {
    hide AllFollow, Same;
    EndsBefore(al, bl, hs, x, y);
    UpToMore(al, bl, hs, x, y, i, j);
    Nest(al, bl, hs, i, i', j, j', inner, i' - i, j' - j);
  }

  lemma EndBound(ta: Bytes, tb: Bytes, regions: seq<ChangedRun>, i: nat)
    requires i <= |regions| && forall r | r in regions :: WholeLines(ta, tb, r)
    ensures LineBound(ta, EndA(regions, i)) && LineBound(tb, EndB(regions, i))
  {
    if i > 0 {
      assert WholeLines(ta, tb, regions[i - 1]);
    }
  }

  /** A region's line diff is a diff of the whole texts' lines in its place. */
  lemma RegionScript(ta: Bytes, tb: Bytes, r: ChangedRun)
    requires r.Valid() && r.aTo <= |ta| && r.bTo <= |tb| && WholeLines(ta, tb, r)
    ensures LineIndex(ta, r.aFrom) <= LineIndex(ta, r.aTo) <= |SplitLines(ta)|
    ensures LineIndex(tb, r.bFrom) <= LineIndex(tb, r.bTo) <= |SplitLines(tb)|
    ensures Script(SplitLines(ta)[LineIndex(ta, r.aFrom)..LineIndex(ta, r.aTo)],
      SplitLines(tb)[LineIndex(tb, r.bFrom)..LineIndex(tb, r.bTo)],
      LineDiff(ta[r.aFrom..r.aTo], tb[r.bFrom..r.bTo]))
  {
    LinesOfPart(ta, r.aFrom, r.aTo);
    LinesOfPart(tb, r.bFrom, r.bTo);
    DiffIsScript(SplitLines(ta[r.aFrom..r.aTo]), SplitLines(tb[r.bFrom..r.bTo]), MAX_LINE_D);
  }

  /** A side of a region: its bytes and the number of its first line. */
  method ReadRegion(st: MemStorage, root: Hash, from: nat, end: nat, ghost top: nat, ghost t: Bytes)
      returns (part: Bytes, line: nat)
    requires Reads(st, root, top, t) && StartsLine(t, from) && from <= end <= |t|
    ensures part == t[from..end] && line == LineIndex(t, from)
  {
    part := MaterializeRange(st, root, from, end, top, t);
    line := LineOfByte(st, root, from, top, t);
    LineNumberIsIndex(t, from);
  }

  method HunksOfRegion(st: MemStorage, a: Hash, b: Hash, r: ChangedRun, ghost aTop: nat, ghost bTop: nat,
      ghost ta: Bytes, ghost tb: Bytes) returns (out: seq<LineHunk>)
    requires Reads(st, a, aTop, ta) && Reads(st, b, bTop, tb)
    requires r.Valid() && r.aTo <= |ta| && r.bTo <= |tb| && WholeLines(ta, tb, r)
    ensures Numbered(ta, tb, r, out)
  {
    hide Reads, SplitLines, LineIndex, LineDiff, AllCarry;
    var at, aLine := ReadRegion(st, a, r.aFrom, r.aTo, aTop, ta);
    var bt, bLine := ReadRegion(st, b, r.bFrom, r.bTo, bTop, tb);
    PartStarts(ta, r.aFrom, r.aTo);
    PartStarts(tb, r.bFrom, r.bTo);
    out := NumberHunks(at, bt, aLine, bLine, SplitLines(ta), SplitLines(tb));
  }

  lemma PartStarts(t: Bytes, i: nat, j: nat)
    requires StartsLine(t, i) && LineBound(t, j) && i <= j
    ensures LineIndex(t, i) + |SplitLines(t[i..j])| <= |SplitLines(t)|
    ensures SplitLines(t[i..j]) == SplitLines(t)[LineIndex(t, i)..LineIndex(t, i) + |SplitLines(t[i..j])|]
  {
    LinesOfPart(t, i, j);
  }

  method NumberHunks(at: Bytes, bt: Bytes, aLine: nat, bLine: nat, ghost al: seq<Bytes>, ghost bl: seq<Bytes>)
      returns (out: seq<LineHunk>)
    requires aLine + |SplitLines(at)| <= |al| && SplitLines(at) == al[aLine..aLine + |SplitLines(at)|]
    requires bLine + |SplitLines(bt)| <= |bl| && SplitLines(bt) == bl[bLine..bLine + |SplitLines(bt)|]
    ensures AsHunks(out) == TreeDiff.Place(LineDiff(at, bt), aLine, bLine)
    ensures AllCarry(al, bl, out)
  {
    var als := SplitIntoLines(at);
    var bls := SplitIntoLines(bt);
    var hunks := DiffSeq(als, bls, MAX_LINE_D);
    DiffIsScript(als, bls, MAX_LINE_D);
    hide SplitLines, DiffHunks, Concat, Carries;
    out := [];
    var k := 0;
    while k < |hunks|
      invariant k <= |hunks| && |out| == k && AllCarry(al, bl, out)
      invariant AsHunks(out) == TreeDiff.Place(hunks, aLine, bLine)[..k]
    {
      assert Follows(als, bls, hunks, k);
      var h := hunks[k];
      var next := LineHunk(aLine + h.aFrom, h.aTo - h.aFrom, bLine + h.bFrom, h.bTo - h.bFrom,
        Concat(als[h.aFrom..h.aTo]), Concat(bls[h.bFrom..h.bTo]));
      SliceInside(al, aLine, aLine + |als|, h.aFrom, h.aTo);
      SliceInside(bl, bLine, bLine + |bls|, h.bFrom, h.bTo);
      NextCarries(al, bl, next);
      assert AsHunks(out + [next]) == AsHunks(out) + [next.AsHunk()];
      out := out + [next];
      k := k + 1;
    }
  }

  lemma NextCarries(al: seq<Bytes>, bl: seq<Bytes>, h: LineHunk)
    requires h.oldFrom + h.oldCount <= |al| && h.oldText == Concat(al[h.oldFrom..h.oldFrom + h.oldCount])
    requires h.newFrom + h.newCount <= |bl| && h.newText == Concat(bl[h.newFrom..h.newFrom + h.newCount])
    ensures Carries(al, bl, h)
  {
  }

  /** Two trees compared line by line: a diff of their lines, with the texts it takes out and puts in. */
  method LineHunksBetween(st: MemStorage, a: Hash, b: Hash, ghost aTop: nat, ghost bTop: nat, ghost ta: Bytes,
      ghost tb: Bytes)
      returns (out: seq<LineHunk>)
    requires Reads(st, a, aTop, ta) && Reads(st, b, bTop, tb)
    ensures Script(SplitLines(ta), SplitLines(tb), AsHunks(out)) && AllCarry(SplitLines(ta), SplitLines(tb), out)
  {
    hide Reads, Same, WholeLines, Diffed, Numbered;
    var regions, _ := ChangedLineRegions(st, a, b, aTop, bTop, ta, tb);
    NothingDiffed(ta, tb, regions);
    out := [];
    var i := 0;
    while i < |regions|
      invariant i <= |regions| && Diffed(ta, tb, regions, i, out)
    {
      assert Follows(ta, tb, regions, i) && WholeLines(ta, tb, regions[i]);
      var more := HunksOfRegion(st, a, b, regions[i], aTop, bTop, ta, tb);
      DiffedStep(ta, tb, regions, i, out, more);
      out := out + more;
      i := i + 1;
    }
    AllDiffed(ta, tb, regions, out);
  }

  lemma AllDiffed(ta: Bytes, tb: Bytes, regions: seq<ChangedRun>, out: seq<LineHunk>)
    requires Script(ta, tb, regions) && (forall r | r in regions :: WholeLines(ta, tb, r))
    requires Diffed(ta, tb, regions, |regions|, out)
    ensures Script(SplitLines(ta), SplitLines(tb), AsHunks(out)) && AllCarry(SplitLines(ta), SplitLines(tb), out)
  {
    hide SplitLines, AllFollow, Same;
    EndBound(ta, tb, regions, |regions|);
    SameBytesSameLines(ta, tb, EndA(regions, |regions|), |ta|, EndB(regions, |regions|), |tb|);
    assert ta[..|ta|] == ta && tb[..|tb|] == tb;
    var al, bl := SplitLines(ta), SplitLines(tb);
    UpToMore(al, bl, AsHunks(out), LineIndex(ta, EndA(regions, |regions|)), LineIndex(tb, EndB(regions, |regions|)),
      |al|, |bl|);
  }

  // ----- patching -----

  ghost predicate InOrder(al: seq<Bytes>, hs: seq<LineHunk>) {
    forall i | 0 <= i < |hs| :: EndA(AsHunks(hs), i) <= hs[i].oldFrom <= hs[i].oldFrom + hs[i].oldCount <= |al|
  }

  /** The old lines from the hunks before the k-th on, with the later hunks' new texts in their places:
      what a caller that holds only the old lines makes of the hunks. */
  function Patched(al: seq<Bytes>, hs: seq<LineHunk>, k: nat): Bytes
    requires InOrder(al, hs) && k <= |hs|
    decreases |hs| - k
  {
    var from := if k == 0 then 0 else hs[k - 1].oldFrom + hs[k - 1].oldCount;
    assert k > 0 ==> from <= |al| by {
      if k > 0 {
        assert hs[k - 1].oldFrom + hs[k - 1].oldCount <= |al|;
      }
    }
    if k == |hs| then Concat(al[from..])
    else
      assert EndA(AsHunks(hs), k) <= hs[k].oldFrom;
      Concat(al[from..hs[k].oldFrom]) + hs[k].newText + Patched(al, hs, k + 1)
  }

  lemma HunksInOrder(al: seq<Bytes>, bl: seq<Bytes>, hs: seq<LineHunk>)
    requires Script(al, bl, AsHunks(hs))
    ensures InOrder(al, hs)
  {
    forall i | 0 <= i < |hs| ensures EndA(AsHunks(hs), i) <= hs[i].oldFrom <= hs[i].oldFrom + hs[i].oldCount <= |al| {
      assert Follows(al, bl, AsHunks(hs), i);
    }
  }

  lemma {:induction false} PatchedFrom(al: seq<Bytes>, bl: seq<Bytes>, hs: seq<LineHunk>, k: nat)
    requires Script(al, bl, AsHunks(hs)) && AllCarry(al, bl, hs) && k <= |hs| && InOrder(al, hs)
    ensures EndB(AsHunks(hs), k) <= |bl| && Patched(al, hs, k) == Concat(bl[EndB(AsHunks(hs), k)..])
    decreases |hs| - k
  {
    var gs := AsHunks(hs);
    hide Concat, AllFollow, InOrder;
    if k == |hs| {
      assert al[EndA(gs, k)..|al|] == al[EndA(gs, k)..] && bl[EndB(gs, k)..|bl|] == bl[EndB(gs, k)..];
    } else {
      FollowsAndCarries(al, bl, hs, k);
      PatchedFrom(al, bl, hs, k + 1);
      ConcatSlices(bl, EndB(gs, k), gs[k].bFrom, gs[k].bTo);
    }
  }

  lemma FollowsAndCarries(al: seq<Bytes>, bl: seq<Bytes>, hs: seq<LineHunk>, k: nat)
    requires Script(al, bl, AsHunks(hs)) && AllCarry(al, bl, hs) && k < |hs|
    ensures Follows(al, bl, AsHunks(hs), k) && Carries(al, bl, hs[k])
  {
    assert hs[k] in hs;
  }

  /** Patching the old document with the hunks between two documents gives the new one. */
  lemma PatchGivesNew(ta: Bytes, tb: Bytes, hs: seq<LineHunk>)
    requires Script(SplitLines(ta), SplitLines(tb), AsHunks(hs)) && AllCarry(SplitLines(ta), SplitLines(tb), hs)
    ensures InOrder(SplitLines(ta), hs) && Patched(SplitLines(ta), hs, 0) == tb
  {
    HunksInOrder(SplitLines(ta), SplitLines(tb), hs);
    PatchedFrom(SplitLines(ta), SplitLines(tb), hs, 0);
    SplitJoins(tb);
    var bl := SplitLines(tb);
    assert bl[0..] == bl;
  }
}
