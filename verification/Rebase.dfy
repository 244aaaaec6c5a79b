/** Rebasing edits onto a document that moved: hop over disjoint changes, merge colliding ones. */
module Rebasing {
  import opened Text
  import opened Nodes
  import opened Storage
  import opened Tree
  import opened Navigation
  import opened LineNavigation
  import opened Splicing
  import opened TreeDiff
  import opened Reports
  import opened ApplyEdits
  import opened Shifting
  import opened Regions
  import opened ThreeWay

  /** What a caller is told about a conflict: the region's three texts and where it is now. */
  datatype ConflictInfo = ConflictInfo(lineFrom: nat, lineTo: nat, base: Bytes, theirs: Bytes, ours: Bytes,
    version: nat)

  datatype RebaseOutcome = Rebased(root: Hash) | Merged(root: Hash) | Conflicted(info: ConflictInfo) | BadEdit

  // ----- picking and ordering edits -----

  function Hits(t: Bytes, runs: seq<ChangedRun>, es: seq<Edit>): seq<Edit> {
    if es == [] then [] else (if Hit(t, es[0], runs) then [es[0]] else []) + Hits(t, runs, es[1..])
  }

  function Clear(t: Bytes, runs: seq<ChangedRun>, es: seq<Edit>): seq<Edit> {
    if es == [] then [] else (if Hit(t, es[0], runs) then [] else [es[0]]) + Clear(t, runs, es[1..])
  }

  lemma {:induction false} NoHitsAllClear(t: Bytes, runs: seq<ChangedRun>, es: seq<Edit>)
    ensures Hits(t, runs, es) == [] ==> Clear(t, runs, es) == es && forall i | 0 <= i < |es| :: !Hit(t, es[i], runs)
    decreases |es|
  {
    if es != [] {
      NoHitsAllClear(t, runs, es[1..]);
      assert es == [es[0]] + es[1..];
      assert forall i | 1 <= i < |es| :: es[i] == es[1..][i - 1];
    }
  }

  /** Inside the region, and not an insertion at one of its ends. */
  predicate Inside(e: Edit, lo: nat, hi: nat) {
    e.from >= lo && e.to <= hi && !(e.from == e.to && (e.from == lo || e.from == hi))
  }

  /** The edits the merge takes: those that collide and those the region came to contain. */
  predicate InRegion(t: Bytes, runs: seq<ChangedRun>, lo: nat, hi: nat, e: Edit) {
    Inside(e, lo, hi) || Hit(t, e, runs)
  }

  function Picked(t: Bytes, runs: seq<ChangedRun>, lo: nat, hi: nat, es: seq<Edit>): seq<Edit> {
    if es == [] then []
    else (if InRegion(t, runs, lo, hi, es[0]) then [es[0]] else []) + Picked(t, runs, lo, hi, es[1..])
  }

  function LeftOver(t: Bytes, runs: seq<ChangedRun>, lo: nat, hi: nat, es: seq<Edit>): seq<Edit> {
    if es == [] then []
    else (if InRegion(t, runs, lo, hi, es[0]) then [] else [es[0]]) + LeftOver(t, runs, lo, hi, es[1..])
  }

  /** Insert behind everything that starts no later: one step of a stable sort by start. */
  function Insert(es: seq<Edit>, e: Edit): seq<Edit> {
    if es == [] then [e]
    else if es[|es| - 1].from <= e.from then es + [e]
    else Insert(es[..|es| - 1], e) + [es[|es| - 1]]
  }

  /** The stable sort by start. */
  function SortByFrom(es: seq<Edit>): seq<Edit> {
    if es == [] then [] else Insert(SortByFrom(es[..|es| - 1]), es[|es| - 1])
  }

  function MinFrom(es: seq<Edit>): nat
    requires es != []
  {
    if |es| == 1 then es[0].from else Min(MinFrom(es[..|es| - 1]), es[|es| - 1].from)
  }

  function MaxTo(es: seq<Edit>): nat
    requires es != []
  {
    if |es| == 1 then es[0].to else Max(MaxTo(es[..|es| - 1]), es[|es| - 1].to)
  }

  // ----- the three texts of the region -----

  /** The bytes of [from, end), as far as there are any. */
  function Part(t: Bytes, from: nat, end: nat): Bytes {
    if from < Min(end, |t|) then t[from..Min(end, |t|)] else []
  }

  /** The base text of [pos, hi) with our edits in it. */
  function EditedPart(t: Bytes, es: seq<Edit>, pos: nat, hi: nat): Bytes {
    if es == [] then Part(t, pos, hi)
    else Part(t, pos, es[0].from) + es[0].replacement + EditedPart(t, es[1..], es[0].to, hi)
  }

  ghost function Info(t: Bytes, u: Bytes, runs: seq<ChangedRun>, es: seq<Edit>, lo: nat, hi: nat,
      version: nat): ConflictInfo
    requires RunsOf(t, u, runs)
  {
    var curLo, curHi := CurrentOf(t, u, runs, lo), CurrentOf(t, u, runs, hi);
    ConflictInfo(
      LineOf(u, Min(curLo, |u|)) + 1,
      LineOf(u, Min(Max(if curHi > 0 then curHi - 1 else 0, curLo), |u|)) + 1,
      Part(t, lo, hi), Part(u, curLo, curHi),
      EditedPart(t, SortByFrom(Picked(t, runs, lo, hi, es)), lo, hi), version)
  }

  /** Where a base offset is now. */
  ghost function CurrentOf(t: Bytes, u: Bytes, runs: seq<ChangedRun>, off: nat): nat
    requires RunsOf(t, u, runs)
  {
    RunsSplice(t, u, runs);
    ShiftBound(off, RunEdits(t, u, runs), 0, |t|);
    Shift(off, RunEdits(t, u, runs))
  }

  /** The edits a merge applies to the current text: ours that are left over, carried over the runs,
      and the merged region in its place. */
  ghost function MergedEdits(t: Bytes, u: Bytes, runs: seq<ChangedRun>, es: seq<Edit>, lo: nat, hi: nat,
      merged: Bytes): seq<Edit>
    requires RunsOf(t, u, runs)
  {
    SortByFrom(ShiftAll(LeftOver(t, runs, lo, hi, es), RunEdits(t, u, runs), 0)
      + [Edit(CurrentOf(t, u, runs, lo), CurrentOf(t, u, runs, hi), merged)])
  }

  /** The outcome of the merge in a region. */
  ghost predicate MergeOutcome(cfg: Config, t: Bytes, u: Bytes, runs: seq<ChangedRun>, es: seq<Edit>, lo: nat, hi: nat,
      version: nat, r: RebaseOutcome)
    requires cfg.Valid() && RunsOf(t, u, runs)
  {
    var i := Info(t, u, runs, es, lo, hi, version);
    match Diff3(i.base, i.ours, i.theirs)
    case Conflict => r == Conflicted(i)
    case Clean(merged) =>
      var all := MergedEdits(t, u, runs, es, lo, hi, merged);
      if Ascending(all, 0, |u|) then r == Merged(BuildRoot(cfg, Splice(u, all))) else r == BadEdit
  }

  /** What rebasing comes to. */
  ghost predicate RebasedAs(cfg: Config, t: Bytes, u: Bytes, runs: seq<ChangedRun>, es: seq<Edit>, version: nat,
      r: RebaseOutcome)
    requires cfg.Valid() && RunsOf(t, u, runs)
  {
    var hits := Hits(t, runs, es);
    if hits == [] then
      var shifted := ShiftAll(es, RunEdits(t, u, runs), 0);
      if Ascending(shifted, 0, |u|) then r == Rebased(BuildRoot(cfg, Splice(u, shifted))) else r == BadEdit
    else
      exists lo: nat, hi: nat ::
        && MergeOutcome(cfg, t, u, runs, es, lo, hi, version, r)
        && (Ascending(es, 0, |t|) ==> LeastRegion(t, runs, MinFrom(hits), MaxTo(hits), lo, hi))
  }

  // ----- the method -----

  method RunLines(st: MemStorage, base: Hash, runs: seq<ChangedRun>, len: nat, ghost top: nat, ghost t: Bytes)
      returns (lines: seq<(nat, nat)>)
    requires Reads(st, base, top, t) && len == |t|
    ensures |lines| == |runs| && forall j | 0 <= j < |runs| :: lines[j] == LineSpan(t, runs[j].aFrom, runs[j].aTo)
  {
    lines := [];
    var i := 0;
    while i < |runs|
      invariant i <= |runs| && |lines| == i
      invariant forall j | 0 <= j < i :: lines[j] == LineSpan(t, runs[j].aFrom, runs[j].aTo)
    {
      var span := LineSpanOf(st, base, runs[i].aFrom, runs[i].aTo, len, top, t);
      lines := lines + [span];
      i := i + 1;
    }
  }

  method IsHit(st: MemStorage, base: Hash, e: Edit, runs: seq<ChangedRun>, lines: seq<(nat, nat)>, len: nat,
      ghost top: nat, ghost t: Bytes)
      returns (hit: bool)
    requires Reads(st, base, top, t) && len == |t|
    requires |lines| == |runs| && forall j | 0 <= j < |runs| :: lines[j] == LineSpan(t, runs[j].aFrom, runs[j].aTo)
    ensures hit == Hit(t, e, runs)
  {
    var el := LineSpanOf(st, base, e.from, e.to, len, top, t);
    var i := 0;
    while i < |runs|
      invariant i <= |runs| && forall j | 0 <= j < i :: !Collides(t, e, runs[j])
    {
      if Overlaps(e, runs[i]) || (el.0 <= lines[i].1 && lines[i].0 <= el.1) {
        assert Collides(t, e, runs[i]);
        return true;
      }
      i := i + 1;
    }
    return false;
  }

  /** Edits that collide, and the others carried over the runs. */
  method Partition(st: MemStorage, base: Hash, runs: seq<ChangedRun>, es: seq<Edit>, len: nat, ghost top: nat,
      ghost t: Bytes, ghost u: Bytes) returns (overlapping: seq<Edit>, shifted: seq<Edit>)
    requires Reads(st, base, top, t) && len == |t| && RunsOf(t, u, runs)
    ensures overlapping == Hits(t, runs, es)
    ensures shifted == ShiftAll(Clear(t, runs, es), RunEdits(t, u, runs), 0)
  {
    hide Reads, RunsOf, Hit;
    var lines := RunLines(st, base, runs, len, top, t);
    ghost var rs := RunEdits(t, u, runs);
    overlapping, shifted := [], [];
    var i := 0;
    ghost var left := es;
    while i < |es|
      invariant i <= |es| && left == es[i..]
      invariant overlapping + Hits(t, runs, left) == Hits(t, runs, es)
      invariant shifted + ShiftAll(Clear(t, runs, left), rs, 0) == ShiftAll(Clear(t, runs, es), rs, 0)
    {
      var e := es[i];
      var hit := IsHit(st, base, e, runs, lines, len, top, t);
      if hit {
        PartitionStep(t, runs, left, rs, overlapping, shifted);
        overlapping := overlapping + [e];
      } else {
        PartitionStep(t, runs, left, rs, overlapping, shifted);
        var from := ShiftOffset(e.from, runs, t, u);
        var end := ShiftOffset(e.to, runs, t, u);
        shifted := shifted + [Edit(from, end, e.replacement)];
      }
      left := left[1..];
      i := i + 1;
    }
  }

  lemma PartitionStep(t: Bytes, runs: seq<ChangedRun>, left: seq<Edit>, rs: seq<Edit>, overlapping: seq<Edit>,
      shifted: seq<Edit>)
    requires left != []
    ensures Hit(t, left[0], runs) ==>
      overlapping + Hits(t, runs, left) == (overlapping + [left[0]]) + Hits(t, runs, left[1..])
      && Clear(t, runs, left) == Clear(t, runs, left[1..])
    ensures !Hit(t, left[0], runs) ==>
      Hits(t, runs, left) == Hits(t, runs, left[1..])
      && shifted + ShiftAll(Clear(t, runs, left), rs, 0) ==
           (shifted + [ShiftEdit(left[0], rs, 0)]) + ShiftAll(Clear(t, runs, left[1..]), rs, 0)
  {
    if !Hit(t, left[0], runs) {
      var rest := Clear(t, runs, left[1..]);
      assert ([left[0]] + rest)[1..] == rest;
      assert [] + Hits(t, runs, left[1..]) == Hits(t, runs, left[1..]);
    }
  }

  method SortStable(es: seq<Edit>) returns (sorted: seq<Edit>)
    ensures sorted == SortByFrom(es)
  {
    sorted := [];
    var i := 0;
    while i < |es|
      invariant i <= |es| && sorted == SortByFrom(es[..i])
    {
      assert es[..i + 1][..i] == es[..i];
      sorted := Insert(sorted, es[i]);
      i := i + 1;
    }
    assert es[..|es|] == es;
  }

  method Bounds(es: seq<Edit>) returns (lo: nat, hi: nat)
    requires es != []
    ensures lo == MinFrom(es) && hi == MaxTo(es)
  {
    lo, hi := es[0].from, es[0].to;
    var i := 1;
    assert es[..1] == [es[0]];
    while i < |es|
      invariant 1 <= i <= |es| && lo == MinFrom(es[..i]) && hi == MaxTo(es[..i])
    {
      assert es[..i + 1][..i] == es[..i];
      lo, hi := Min(lo, es[i].from), Max(hi, es[i].to);
      i := i + 1;
    }
    assert es[..|es|] == es;
  }

  /** The edits the merge takes, and the others carried over the runs. */
  method PickInside(edits: seq<Edit>, overlapping: seq<Edit>, runs: seq<ChangedRun>, lo: nat, hi: nat, ghost t: Bytes,
      ghost u: Bytes)
      returns (picked: seq<Edit>, outside: seq<Edit>)
    requires RunsOf(t, u, runs) && overlapping == Hits(t, runs, edits)
    ensures picked == Picked(t, runs, lo, hi, edits)
    ensures outside == ShiftAll(LeftOver(t, runs, lo, hi, edits), RunEdits(t, u, runs), 0)
  {
    hide RunsOf, Hit;
    ghost var rs := RunEdits(t, u, runs);
    picked, outside := [], [];
    var i := 0;
    ghost var left := edits;
    while i < |edits|
      invariant i <= |edits| && left == edits[i..]
      invariant picked + Picked(t, runs, lo, hi, left) == Picked(t, runs, lo, hi, edits)
      invariant outside + ShiftAll(LeftOver(t, runs, lo, hi, left), rs, 0) ==
        ShiftAll(LeftOver(t, runs, lo, hi, edits), rs, 0)
    {
      var e := edits[i];
      InHits(t, runs, edits, i);
      PickStep(t, runs, lo, hi, left, rs, picked, outside);
      if Inside(e, lo, hi) || e in overlapping {
        picked := picked + [e];
      } else {
        var from := ShiftOffset(e.from, runs, t, u);
        var end := ShiftOffset(e.to, runs, t, u);
        outside := outside + [Edit(from, end, e.replacement)];
      }
      left := left[1..];
      i := i + 1;
    }
  }

  lemma {:induction false} InHits(t: Bytes, runs: seq<ChangedRun>, es: seq<Edit>, i: nat)
    requires i < |es|
    ensures es[i] in Hits(t, runs, es) <==> Hit(t, es[i], runs)
    decreases |es|
  {
    HitsHit(t, runs, es);
    if i > 0 {
      InHits(t, runs, es[1..], i - 1);
    }
  }

  lemma {:induction false} HitsHit(t: Bytes, runs: seq<ChangedRun>, es: seq<Edit>)
    ensures forall e | e in Hits(t, runs, es) :: Hit(t, e, runs) && e in es
    decreases |es|
  {
    if es != [] {
      HitsHit(t, runs, es[1..]);
    }
  }

  lemma PickStep(t: Bytes, runs: seq<ChangedRun>, lo: nat, hi: nat, left: seq<Edit>, rs: seq<Edit>, picked: seq<Edit>,
      outside: seq<Edit>)
    requires left != []
    ensures InRegion(t, runs, lo, hi, left[0]) ==>
      picked + Picked(t, runs, lo, hi, left) == (picked + [left[0]]) + Picked(t, runs, lo, hi, left[1..])
      && LeftOver(t, runs, lo, hi, left) == LeftOver(t, runs, lo, hi, left[1..])
    ensures !InRegion(t, runs, lo, hi, left[0]) ==>
      Picked(t, runs, lo, hi, left) == Picked(t, runs, lo, hi, left[1..])
      && outside + ShiftAll(LeftOver(t, runs, lo, hi, left), rs, 0)
        == (outside + [ShiftEdit(left[0], rs, 0)]) + ShiftAll(LeftOver(t, runs, lo, hi, left[1..]), rs, 0)
  {
    if !InRegion(t, runs, lo, hi, left[0]) {
      var rest := LeftOver(t, runs, lo, hi, left[1..]);
      assert ([left[0]] + rest)[1..] == rest;
      assert [] + Picked(t, runs, lo, hi, left[1..]) == Picked(t, runs, lo, hi, left[1..]);
    }
  }

  /** Our text of the region: the base's with our edits in it. */
  method OursText(st: MemStorage, base: Hash, es: seq<Edit>, lo: nat, hi: nat, ghost top: nat, ghost t: Bytes)
      returns (ours: Bytes)
    requires Reads(st, base, top, t)
    ensures ours == EditedPart(t, es, lo, hi)
  {
    ours := [];
    var pos := lo;
    var i := 0;
    ghost var left := es;
    hide Reads, Part;
    while i < |es|
      invariant i <= |es| && left == es[i..] && ours + EditedPart(t, left, pos, hi) == EditedPart(t, es, lo, hi)
    {
      var e := es[i];
      var before := ReadPart(st, base, pos, e.from, top, t);
      AssocParts(ours, Part(t, pos, e.from), e.replacement, EditedPart(t, left[1..], e.to, hi));
      ours := ours + before;
      ours := ours + e.replacement;
      pos := e.to;
      left := left[1..];
      i := i + 1;
    }
    var behind := ReadPart(st, base, pos, hi, top, t);
    ours := ours + behind;
  }

  lemma AssocParts(a: Bytes, b: Bytes, c: Bytes, d: Bytes)
    ensures a + (b + c + d) == ((a + b) + c) + d
  {
  }

  method ReadPart(st: MemStorage, root: Hash, from: nat, end: nat, ghost top: nat, ghost t: Bytes)
      returns (bytes: Bytes)
    requires Reads(st, root, top, t)
    ensures bytes == Part(t, from, end)
  {
    bytes := MaterializeRange(st, root, from, end, top, t);
  }

  /** A stored root built from `t` can be read as `t`. */
  lemma CanonicalReads(st: MemStorage, cfg: Config, root: Hash, t: Bytes) returns (top: nat)
    requires st.Sound() && cfg.Valid() && root in st.Stored() && root == BuildRoot(cfg, t)
    ensures Reads(st, root, top, t) && Down(root.node.children, top) == Leaves(cfg.chunking, t)
  {
    top := BuiltRoot(cfg, t);
  }

  /** A stored document and its text. */
  ghost predicate Document(st: MemStorage, cfg: Config, root: Hash, t: Bytes)
    requires cfg.Valid()
    reads st
  {
    st.Sound() && root in st.Stored() && root == BuildRoot(cfg, t)
  }

  /** The texts a merge works on, read from the two documents. */
  method RegionTexts(st: MemStorage, base: Hash, rcur: Hash, runs: seq<ChangedRun>, picked: seq<Edit>, lo: nat, hi: nat,
      version: nat, ghost top: nat, ghost t: Bytes, ghost curTop: nat, ghost u: Bytes, ghost edits: seq<Edit>)
      returns (info: ConflictInfo, curLo: nat, curHi: nat)
    requires Reads(st, base, top, t) && Reads(st, rcur, curTop, u) && RunsOf(t, u, runs)
    requires picked == SortByFrom(Picked(t, runs, lo, hi, edits))
    ensures info == Info(t, u, runs, edits, lo, hi, version)
    ensures curLo == CurrentOf(t, u, runs, lo) && curHi == CurrentOf(t, u, runs, hi)
  {
    hide Reads, RunsOf, Hit;
    var baseText := ReadPart(st, base, lo, hi, top, t);
    var ours := OursText(st, base, picked, lo, hi, top, t);
    curLo := ShiftOffset(lo, runs, t, u);
    curHi := ShiftOffset(hi, runs, t, u);
    var theirs := ReadPart(st, rcur, curLo, curHi, curTop, u);
    var l0 := LineOfByte(st, rcur, curLo, curTop, u);
    var l1 := LineOfByte(st, rcur, Max(if curHi > 0 then curHi - 1 else 0, curLo), curTop, u);
    info := ConflictInfo(l0 + 1, l1 + 1, baseText, theirs, ours, version);
  }

  /** Merge the region where edits and runs collide. */
  method MergeRegion(st: MemStorage, cfg: Config, base: Hash, rcur: Hash, edits: seq<Edit>, overlapping: seq<Edit>,
      runs: seq<ChangedRun>, version: nat, len: nat, ghost top: nat, ghost t: Bytes, ghost u: Bytes)
        returns (r: RebaseOutcome, ghost lo: nat, ghost hi: nat)
    requires cfg.Valid() && Document(st, cfg, base, t) && Document(st, cfg, rcur, u) && RunsOf(t, u, runs)
    requires overlapping == Hits(t, runs, edits) && overlapping != [] && Reads(st, base, top, t) && len == |t|
    modifies st`chunks, st`chunkBytesWritten, st`nodes, st`nodeWrites
    ensures st.Sound() && old(st.Stored()) <= st.Stored() && (r.Merged? ==> r.root in st.Stored()) && !r.Rebased?
    ensures MergeOutcome(cfg, t, u, runs, edits, lo, hi, version, r)
    ensures MinFrom(overlapping) <= MaxTo(overlapping) <= |t| ==>
      LeastRegion(t, runs, MinFrom(overlapping), MaxTo(overlapping), lo, hi)
  {
    hide Reads, RunsOf, Hit, LeastRegion, Closed, Info, LeftOver, Picked, MergeOutcome, CurrentOf;
    ghost var curTop := CanonicalReads(st, cfg, rcur, u);
    var lo0, hi0 := Bounds(overlapping);
    var rlo, rhi := RegionAround(st, base, runs, lo0, hi0, len, top, t, u);
    lo, hi := rlo, rhi;
    var picked, outside := PickInside(edits, overlapping, runs, rlo, rhi, t, u);
    var ours := SortStable(picked);
    var info, curLo, curHi := RegionTexts(st, base, rcur, runs, ours, rlo, rhi, version, top, t, curTop, u, edits);
    r := MergeTexts(st, cfg, rcur, edits, outside, runs, info, curLo, curHi, version, rlo, rhi, t, u);
  }

  /** Merge the three texts, and apply the result with the other edits to the current document. */
  method MergeTexts(st: MemStorage, cfg: Config, rcur: Hash, ghost edits: seq<Edit>, outside: seq<Edit>,
      ghost runs: seq<ChangedRun>, info: ConflictInfo, curLo: nat, curHi: nat, ghost version: nat, ghost lo: nat,
      ghost hi: nat, ghost t: Bytes, ghost u: Bytes)
      returns (r: RebaseOutcome)
    requires cfg.Valid() && Document(st, cfg, rcur, u) && RunsOf(t, u, runs)
    requires info == Info(t, u, runs, edits, lo, hi, version)
    requires curLo == CurrentOf(t, u, runs, lo) && curHi == CurrentOf(t, u, runs, hi)
    requires outside == ShiftAll(LeftOver(t, runs, lo, hi, edits), RunEdits(t, u, runs), 0)
    modifies st`chunks, st`chunkBytesWritten, st`nodes, st`nodeWrites
    ensures st.Sound() && old(st.Stored()) <= st.Stored() && (r.Merged? ==> r.root in st.Stored()) && !r.Rebased?
    ensures MergeOutcome(cfg, t, u, runs, edits, lo, hi, version, r)
  {
    hide RunsOf, Closed, Info, LeftOver, CurrentOf, SortByFrom, AlignedPieces;
    var merged := Merge3(info.base, info.ours, info.theirs, None);
    match merged {
      case None =>
        r := Conflicted(info);
      case Some(m) =>
        var all := SortStable(outside + [Edit(curLo, curHi, m.0)]);
        var outcome := ApplyEditSet(st, cfg, rcur, all, u);
        r := if outcome.Applied? then Merged(outcome.root) else BadEdit;
    }
  }

  /** The runs between two documents. */
  method RunsBetween(st: MemStorage, cfg: Config, base: Hash, rcur: Hash, ghost t: Bytes, ghost u: Bytes)
      returns (runs: seq<ChangedRun>, ghost top: nat)
    requires cfg.Valid() && Document(st, cfg, base, t) && Document(st, cfg, rcur, u)
    ensures Reported(cfg, t, u, runs) && RunsOf(t, u, runs) && Reads(st, base, top, t)
  {
    hide ReportedOver, BuildRoot, Leaves;
    top := CanonicalReads(st, cfg, base, t);
    ghost var curTop := CanonicalReads(st, cfg, rcur, u);
    runs := ChangedRuns(st, base, rcur, top, curTop, t, u);
  }

  /** Rebase edits made against `base` onto the current root. */
  method Rebase(st: MemStorage, cfg: Config, base: Hash, rcur: Hash, edits: seq<Edit>, version: nat, ghost t: Bytes,
      ghost u: Bytes)
      returns (r: RebaseOutcome, ghost runs: seq<ChangedRun>)
    requires cfg.Valid() && Document(st, cfg, base, t) && Document(st, cfg, rcur, u)
    modifies st`chunks, st`chunkBytesWritten, st`nodes, st`nodeWrites
    ensures st.Sound() && old(st.Stored()) <= st.Stored() && (r.Rebased? || r.Merged? ==> r.root in st.Stored())
    ensures Reported(cfg, t, u, runs) && RunsOf(t, u, runs) && RebasedAs(cfg, t, u, runs, edits, version, r)
  {
    hide Reads, Reported, RunsOf, Hit, LeastRegion, Closed, MergeOutcome;
    var changed, top := RunsBetween(st, cfg, base, rcur, t, u);
    runs := changed;
    var len, _ := Totals(st, base, top, t);
    var overlapping, shifted := Partition(st, base, changed, edits, len, top, t, u);
    if overlapping == [] {
      NoHitsAllClear(t, runs, edits);
      var outcome := ApplyEditSet(st, cfg, rcur, shifted, u);
      r := if outcome.Applied? then Rebased(outcome.root) else BadEdit;
      return;
    }
    ghost var lo, hi;
    r, lo, hi := MergeRegion(st, cfg, base, rcur, edits, overlapping, changed, version, len, top, t, u);
    if Ascending(edits, 0, |t|) {
      HitsWithin(t, changed, edits, 0);
    }
  }

  lemma {:induction false} HitsWithin(t: Bytes, runs: seq<ChangedRun>, es: seq<Edit>, at: nat)
    requires Ascending(es, at, |t|)
    ensures forall e | e in Hits(t, runs, es) :: at <= e.from <= e.to <= |t|
    ensures Hits(t, runs, es) != [] ==> MinFrom(Hits(t, runs, es)) <= MaxTo(Hits(t, runs, es)) <= |t|
    decreases |es|
  {
    if es != [] {
      HitsWithin(t, runs, es[1..], es[0].to);
    }
    MinMax(Hits(t, runs, es), |t|);
  }

  lemma {:induction false} MinMax(es: seq<Edit>, n: nat)
    requires forall e | e in es :: e.from <= e.to <= n
    ensures es != [] ==> MinFrom(es) <= MaxTo(es) <= n
    decreases |es|
  {
    if |es| > 1 {
      MinMax(es[..|es| - 1], n);
    }
  }
}
