/** Applying edits to a stored tree gives the root of the spliced text. */
module ApplyEdits {
  import opened Text
  import opened Nodes
  import opened Storage
  import opened Chunker
  import opened Grouping
  import opened Tree
  import opened Cursors
  import opened Seeking
  import opened Replacing
  import opened Splicing
  import opened EditLocality
  import opened EditTree
  import opened Navigation

  /** A stored root built from `t`, with the shape the cursors need. */
  ghost predicate Stands(st: MemStorage, cfg: Config, pl: Place, t: Bytes)
    reads st
  {
    && st.Sound() && cfg.Valid() && NodeHash(pl.root) in st.Stored()
    && NodeHash(pl.root) == BuildRoot(cfg, t) && Canonical(cfg, pl, t)
  }

  ghost predicate Canonical(cfg: Config, pl: Place, t: Bytes)
    requires cfg.Valid()
  {
    && CanonicalTop(cfg.bd, pl.top, pl.root.children)
    && Down(pl.root.children, pl.top) == Leaves(cfg.chunking, t)
    && ChildrenText(pl.root.children) == t
  }

  // ----- leaf positions and offsets -----

  /** A leaf position at offset `start` splits the leaves of the text, and the text. */
  lemma {:induction false} LeafPosition(cfg: Config, pl: Place, t: Bytes, p: Path)
    requires cfg.Valid() && Canonical(cfg, pl, t) && ValidPath(pl, 0, p)
    ensures p.Before() + p.From() == Leaves(cfg.chunking, t)
    ensures AllWellFormed(0, p.Before()) && AllWellFormed(0, p.From())
    ensures SumBytes(p.Before()) + SumBytes(p.From()) == |t|
    ensures p.Entry().nbytes <= SumBytes(p.From())
    ensures t == ChildrenText(p.Before()) + t[SumBytes(p.Before())..]
    ensures p.From() == Leaves(cfg.chunking, t[SumBytes(p.Before())..])
  {
    WholeLevelDown(pl, 0, p);
    FromWellFormed(pl, 0, p);
    LeafSplit(cfg.chunking, t, p.Before(), p.From());
    FirstEntry(p);
    hide Canonical, Leaves, ChildrenText, AllWellFormed, ValidPath, Path.Before, Path.From;
  }

  lemma {:induction false} FirstEntry(p: Path)
    requires p.InRange()
    ensures p.Entry().nbytes <= SumBytes(p.From())
  {
    assert p.From() == [p.Entry()] + p.From()[1..];
  }

  lemma {:induction false} LeafSplit(p: ChunkParams, t: Bytes, front: seq<Child>, back: seq<Child>)
    requires p.Valid() && Leaves(p, t) == front + back && AllWellFormed(0, front) && AllWellFormed(0, back)
    ensures SumBytes(front) + SumBytes(back) == |t|
    ensures t == ChildrenText(front) + t[SumBytes(front)..]
    ensures back == Leaves(p, t[SumBytes(front)..])
  {
    LeavesWellFormed(p, t);
    ChildrenTextConcat(front, back);
    SumsAreTotals(0, front);
    SumsAreTotals(0, back);
    var x := t[SumBytes(front)..];
    assert x == ChildrenText(back);
    LeavesAfter(p, front, back, x);
  }

  lemma {:induction false} SumGrows(es: seq<Child>, i: nat, j: nat)
    requires AllWellFormed(0, es) && i <= j <= |es|
    ensures SumBytes(es[..i]) + (j - i) <= SumBytes(es[..j])
    decreases j - i
  {
    if i < j {
      SumGrows(es, i, j - 1);
      SumBytesSnoc(es, j - 1);
      assert WellFormed(0, es[j - 1]);
      EntryTotals(0, es[j - 1]);
    }
  }

  /** The leaf that holds the byte just before a boundary is the one before the boundary. */
  lemma {:induction false} LeafBefore(es: seq<Child>, i: nat, j: nat)
    requires AllWellFormed(0, es) && i < |es| && j <= |es|
    requires SumBytes(es[..i]) < SumBytes(es[..j]) <= SumBytes(es[..i]) + es[i].nbytes
    ensures j == i + 1
  {
    if j <= i {
      SumGrows(es, j, i);
    } else {
      SumBytesSnoc(es, i);
      SumGrows(es, i + 1, j);
    }
  }

  /** The leaves before the window are out of the edit's reach. */
  ghost predicate OutOfReach(p: ChunkParams, front: seq<Child>, gap: nat) {
    front == [] || EndsLine(front[|front| - 1]) || p.snap <= gap
  }

  lemma {:induction false} NoLeafBefore(front: seq<Child>)
    requires AllWellFormed(0, front) && SumBytes(front) == 0
    ensures front == []
  {
    SumGrows(front, 0, |front|);
    assert front[..|front|] == front;
  }

  /** Two splits of one leaf sequence, the second at the end of the entry after the first. */
  lemma {:induction false} AdjacentSplits(es: seq<Child>, front: seq<Child>, e: Child, back: seq<Child>,
      front': seq<Child>, back': seq<Child>)
    requires AllWellFormed(0, es) && es == front + ([e] + back) && es == front' + back'
    requires SumBytes(front) < SumBytes(front') <= SumBytes(front) + e.nbytes
    ensures front' == front + [e] && back' == back
    ensures SumBytes(front') == SumBytes(front) + e.nbytes
  {
    var i, j := |front|, |front'|;
    assert es[..i] == front && es[i] == e && es[..j] == front';
    LeafBefore(es, i, j);
    SumBytesSnoc(es, i);
    assert es[..i + 1] == front + [e];
    assert back' == es[i + 1..] && back == es[i + 1..];
  }

  lemma {:induction false} LeafLevel(cfg: Config, pl: Place, t: Bytes, p: Path)
    requires cfg.Valid() && Canonical(cfg, pl, t) && ValidPath(pl, 0, p)
    ensures p.Before() + p.From() == Leaves(cfg.chunking, t)
  {
    hide *;
    CanonicalDown(cfg, pl, t);
    WholeLevelDown(pl, 0, p);
  }

  lemma {:induction false} CanonicalDown(cfg: Config, pl: Place, t: Bytes)
    requires cfg.Valid() && Canonical(cfg, pl, t)
    ensures Down(pl.root.children, pl.top) == Leaves(cfg.chunking, t)
    ensures CanonicalTop(cfg.bd, pl.top, pl.root.children)
  {
  }

  lemma {:induction false} PositionBefore(cfg: Config, pl: Place, t: Bytes, a: Path, prev: Path, start: nat,
      prevStart: nat)
    requires cfg.Valid() && Canonical(cfg, pl, t) && ValidPath(pl, 0, a) && ValidPath(pl, 0, prev)
    requires 0 < start == SumBytes(a.Before()) && AtOffset(prev, start - 1, prevStart)
    ensures a.Before() == prev.Before() + [prev.Entry()]
    ensures prevStart + prev.Entry().nbytes == start
    ensures cfg.chunking.min < prev.Entry().nbytes
  {
    LeafLevel(cfg, pl, t, a);
    LeafLevel(cfg, pl, t, prev);
    AdjacentLeaf(cfg.chunking, t, prev.Before(), prev.From(), a.Before(), a.From());
  }

  lemma {:induction false} AdjacentLeaf(p: ChunkParams, t: Bytes, front: seq<Child>, rest: seq<Child>,
      front': seq<Child>, back': seq<Child>)
    requires p.Valid() && Leaves(p, t) == front + rest && Leaves(p, t) == front' + back'
    requires rest != [] && back' != []
    requires SumBytes(front) < SumBytes(front')
    requires SumBytes(front') <= SumBytes(front) + rest[0].nbytes || |rest| == 1
    ensures front' == front + [rest[0]]
    ensures SumBytes(front') == SumBytes(front) + rest[0].nbytes
    ensures p.min < rest[0].nbytes
  {
    var e, back := rest[0], rest[1..];
    assert rest == [e] + back;
    LeavesWellFormed(p, t);
    SumsConcat(front, rest);
    SumsConcat(front', back');
    if |rest| == 1 {
      LastEntryEnds(rest);
    }
    AdjacentSplits(Leaves(p, t), front, e, back, front', back');
    InnerLeaf(p, t, front, e, back);
  }

  lemma {:induction false} LastEntryEnds(es: seq<Child>)
    requires |es| == 1
    ensures SumBytes(es) == es[0].nbytes
  {
    assert es[1..] == [];
  }

  lemma {:induction false} InnerLeaf(p: ChunkParams, t: Bytes, front: seq<Child>, leaf: Child, back: seq<Child>)
    requires p.Valid() && Leaves(p, t) == front + ([leaf] + back) && back != []
    ensures p.min < leaf.nbytes
  {
    LeavesWellFormed(p, t);
    WellFormedConcat(0, front, [leaf] + back);
    LeafSplit(p, t, front, [leaf] + back);
    var x := t[SumBytes(front)..];
    assert WellFormed(0, ([leaf] + back)[0]);
    var y := LeafText(p, x, leaf.hash.chunk, [leaf] + back);
    LeafFirst(p, leaf.hash.chunk, y, back);
  }

  lemma {:induction false} NoLookBack(cfg: Config, pl: Place, t: Bytes, a: Path, start: nat, from: nat)
    requires cfg.Valid() && Canonical(cfg, pl, t) && ValidPath(pl, 0, a)
    requires start == SumBytes(a.Before()) <= from
    requires start == 0 || cfg.chunking.snap <= from - start
    ensures OutOfReach(cfg.chunking, a.Before(), from - start)
  {
    LeafPosition(cfg, pl, t, a);
    if start == 0 {
      NoLeafBefore(a.Before());
    }
  }

  /** The first leaf of the re-chunk window: the one that holds `from`, or the one before it when
      that one's cut may have looked at the edited bytes. */
  method WindowStart(st: MemStorage, cfg: Config, root: Hash, from: nat, ghost pl: Place, ghost t: Bytes)
      returns (a: Path, start: nat)
    requires Stands(st, cfg, pl, t) && root == NodeHash(pl.root) && pl.root.children != [] && from <= |t|
    ensures ValidPath(pl, 0, a) && start == SumBytes(a.Before()) <= from
    ensures OutOfReach(cfg.chunking, a.Before(), from - start)
  {
    var r := AtByte(st, root, from, pl);
    a, start := r.value.0, r.value.1;
    if start > 0 && from - start < cfg.chunking.snap {
      a, start := LookBack(st, cfg, root, from, a, start, pl, t);
    } else {
      NoLookBack(cfg, pl, t, a, start, from);
    }
  }

  method LookBack(st: MemStorage, cfg: Config, root: Hash, from: nat, a0: Path, start0: nat, ghost pl: Place,
      ghost t: Bytes)
      returns (a: Path, start: nat)
    requires Stands(st, cfg, pl, t) && root == NodeHash(pl.root) && pl.root.children != []
    requires ValidPath(pl, 0, a0) && 0 < start0 == SumBytes(a0.Before()) <= from
    ensures ValidPath(pl, 0, a) && start == SumBytes(a.Before()) <= from
    ensures OutOfReach(cfg.chunking, a.Before(), from - start)
  {
    assert CanonicalTop(cfg.bd, pl.top, pl.root.children);
    hide Canonical, Leaves, TextOf, SumBytes, Closed;
    var q := AtByte(st, root, start0 - 1, pl);
    var prev, prevStart := q.value.0, q.value.1;
    PositionBefore(cfg, pl, t, a0, prev, start0, prevStart);
    var bytes := LeafBytes(st, prev, pl);
    if bytes[|bytes| - 1] != NL {
      return prev, prevStart;
    }
    return a0, start0;
  }

  method LeafBytes(st: MemStorage, p: Path, ghost pl: Place) returns (bytes: Bytes)
    requires st.Sound() && NodeHash(pl.root) in st.Stored() && ValidPath(pl, 0, p)
    ensures p.Entry() == LeafOf(bytes) && bytes != []
  {
    PathStored(st.Stored(), pl, 0, p);
    assert WellFormed(0, p.frame.node.children[p.frame.idx]);
    bytes := st.ChunkAt(p.Entry().hash);
  }

  // ----- one edit -----

  /** The text the window is re-chunked over: from `start` to the end of the edited document. */
  ghost function WindowText(t: Bytes, e: Edit, start: nat): Bytes
    requires start <= e.from <= e.to <= |t|
  {
    t[start..e.from] + e.replacement + t[e.to..]
  }

  /** The leaves before the window are leaves of the edited text too. */
  lemma {:induction false} EditedLeaves(cfg: Config, pl: Place, t: Bytes, e: Edit, a: Path, start: nat)
    requires cfg.Valid() && Canonical(cfg, pl, t) && ValidPath(pl, 0, a)
    requires start == SumBytes(a.Before()) <= e.from <= e.to <= |t|
    requires OutOfReach(cfg.chunking, a.Before(), e.from - start)
    ensures Leaves(cfg.chunking, SpliceOne(t, e)) == a.Before() + Leaves(cfg.chunking, WindowText(t, e, start))
  {
    hide Canonical, ChildrenText, EndsLine, Flatten, Leaves, Linked, Settles, SumBytes;
    LeafPosition(cfg, pl, t, a);
    hide Canonical, Leaves, ValidPath, OutOfReach, WindowText, SpliceOne;
    var x, y, n := t[start..], WindowText(t, e, start), e.from - start;
    SameHead(t, e, start);
    StablePrefix(cfg.chunking, a.Before(), a.From(), x, y, n);
    WindowBehind(t, e, start, ChildrenText(a.Before()));
  }

  lemma {:induction false} SameHead(t: Bytes, e: Edit, start: nat)
    requires start <= e.from <= e.to <= |t|
    ensures t[start..][..e.from - start] == WindowText(t, e, start)[..e.from - start]
  {
    assert t[start..][..e.from - start] == t[start..e.from];
  }

  lemma {:induction false} WindowBehind(t: Bytes, e: Edit, start: nat, front: Bytes)
    requires start <= e.from <= e.to <= |t| && t == front + t[start..] && |front| == start
    ensures SpliceOne(t, e) == front + WindowText(t, e, start)
  {
    assert t[..e.from] == front + t[start..e.from];
  }

  /** Where to load the old leaves behind the edit from. */
  method SuffixAt(st: MemStorage, cfg: Config, root: Hash, at: nat, front: Bytes, len: nat, ghost pl: Place,
      ghost t: Bytes)
      returns (l: Loader)
    requires Stands(st, cfg, pl, t) && root == NodeHash(pl.root) && at <= len == |t| && pl.root.children != []
    ensures l.buf == front && LoaderOk(cfg.chunking, pl, front + t[at..], l)
  {
    hide LoaderOk, SuffixOk, Leaves;
    l := Loader(front, None, 0, []);
    if at < len {
      var r := AtByte(st, root, at, pl);
      var c, start := r.value.0, r.value.1;
      l := Loader(front, Some(c), at - start, if start == at then [Bound(|front|, Some(c))] else []);
      SuffixCursorOk(cfg, pl, t, c, start, at);
    }
    LoaderStart(cfg.chunking, pl, front, t[at..], l);
  }

  lemma {:induction false} SuffixCursorOk(cfg: Config, pl: Place, t: Bytes, c: Path, start: nat, at: nat)
    requires cfg.Valid() && Canonical(cfg, pl, t) && ValidPath(pl, 0, c) && AtOffset(c, at, start) && at < |t|
    ensures SuffixOk(cfg.chunking, pl, Some(c), at - start, t[at..])
    ensures start == at ==> c.From() == Leaves(cfg.chunking, t[at..])
  {
    hide Canonical, Leaves, TextOf, WellFormed;
    LeafFrom(cfg, pl, t, c, start);
    if |c.From()| == 1 {
      LastEntryEnds(c.From());
    }
    SliceJoin(t, start, at);
    assert Behind(cfg.chunking, c, t[start..at], at - start, t[at..]);
  }

  lemma {:induction false} LeafFrom(cfg: Config, pl: Place, t: Bytes, c: Path, start: nat)
    requires cfg.Valid() && Canonical(cfg, pl, t) && ValidPath(pl, 0, c) && start == SumBytes(c.Before())
    ensures start + SumBytes(c.From()) == |t| && c.From() == Leaves(cfg.chunking, t[start..])
  {
    LeafPosition(cfg, pl, t, c);
  }

  lemma {:induction false} SliceJoin(t: Bytes, start: nat, at: nat)
    requires start <= at <= |t|
    ensures t[start..at] + t[at..] == t[start..]
  {
  }

  lemma {:induction false} LoaderStart(p: ChunkParams, pl: Place, front: Bytes, rest: Bytes, l: Loader)
    requires p.Valid() && l.buf == front && SuffixOk(p, pl, l.suffix, l.skip, rest)
    requires l.bounds == [] ||
      (l.suffix.Some? && l.bounds == [Bound(|front|, l.suffix)] && l.suffix.value.From() == Leaves(p, rest))
    ensures LoaderOk(p, pl, front + rest, l)
  {
    var w := front + rest;
    assert w[|front|..] == rest;
    if l.bounds != [] {
      assert BoundOk(p, pl, w, l.bounds[0]);
    }
  }

  /** The replaced leaf range, in the terms of the rebuild. */
  lemma {:induction false} EditedLevel(cfg: Config, pl: Place, t: Bytes, e: Edit, a: Path, start: nat,
      leaves: seq<Child>, k: Option<Path>)
    requires cfg.Valid() && Canonical(cfg, pl, t) && ValidPath(pl, 0, a)
    requires start == SumBytes(a.Before()) <= e.from <= e.to <= |t|
    requires OutOfReach(cfg.chunking, a.Before(), e.from - start)
    requires Resynced(cfg.chunking, pl, WindowText(t, e, start), leaves, k)
    ensures NewLevel(a, leaves, k) == Leaves(cfg.chunking, SpliceOne(t, e))
    ensures Settles(cfg.bd, NewLevel(a, leaves, k))
    ensures BuildUp(cfg.bd, NewLevel(a, leaves, k)) == BuildRoot(cfg, SpliceOne(t, e))
    ensures AllWellFormed(0, leaves) && (k.Some? ==> ValidPath(pl, 0, k.value))
  {
    EditedLeaves(cfg, pl, t, e, a, start);
    LeavesWellFormed(cfg.chunking, WindowText(t, e, start));
    WellFormedConcat(0, leaves, FromOpt(k));
    Assoc(a.Before(), leaves, FromOpt(k));
  }

  /** One edit, by re-chunking a window: the root of the edited text, every write additive. */
  method ApplyOne(st: MemStorage, cfg: Config, root: Hash, e: Edit, ghost t: Bytes) returns (r: Hash)
    requires st.Sound() && cfg.Valid() && root in st.Stored() && root == BuildRoot(cfg, t)
    requires e.from <= e.to <= |t|
    modifies st`chunks, st`chunkBytesWritten, st`nodes, st`nodeWrites
    ensures r == BuildRoot(cfg, SpliceOne(t, e))
    ensures st.Sound() && old(st.Stored()) <= st.Stored() && r in st.Stored()
  {
    ghost var pl := PlaceOf(cfg, t);
    assert Stands(st, cfg, pl, t) && Reads(st, root, pl.top, t);
    hide Canonical, Reads, ValidPath, TextOf, Closed, Leaves, AllIn;
    var node := st.NodeAt(root);
    if node.children == [] {
      assert SpliceOne(t, e) == e.replacement;
      var hashes;
      r, hashes := Build(st, cfg, e.replacement);
      return;
    }
    r := EditWindow(st, cfg, root, e, pl, t);
  }

  /** Re-chunk the window around the edit and put its leaves in place of the old ones. */
  method EditWindow(st: MemStorage, cfg: Config, root: Hash, e: Edit, ghost pl: Place, ghost t: Bytes) returns (r: Hash)
    requires Stands(st, cfg, pl, t) && root == NodeHash(pl.root) && pl.root.children != [] && Reads(st, root, pl.top, t)
    requires e.from <= e.to <= |t|
    modifies st`chunks, st`chunkBytesWritten, st`nodes, st`nodeWrites
    ensures r == BuildRoot(cfg, SpliceOne(t, e))
    ensures st.Sound() && old(st.Stored()) <= st.Stored() && r in st.Stored()
  {
    hide Canonical, CanonicalTop, Reads, ValidPath, TextOf, Closed, Leaves, AllIn, SpliceOne, WindowText, OutOfReach,
      Resynced,
      LoaderOk, NewLevel, ChildrenText, SumBytes, BuildRoot, Path.Before;
    CanonicalDown(cfg, pl, t);
    var a, start := WindowStart(st, cfg, root, e.from, pl, t);
    var front := MaterializeRange(st, root, start, e.from, pl.top, t);
    assert front == t[start..e.from];
    var len, _ := Totals(st, root, pl.top, t);
    var l := SuffixAt(st, cfg, root, e.to, front + e.replacement, len, pl, t);
    WindowIs(t, e, start, front);
    var leaves, k := Rechunk(st, cfg.chunking, l, pl, WindowText(t, e, start));
    EditedLevel(cfg, pl, t, e, a, start, leaves, k);
    r := ReplaceEntries(st, cfg.bd, a, k, leaves, pl);
  }

  lemma {:induction false} WindowIs(t: Bytes, e: Edit, start: nat, front: Bytes)
    requires start <= e.from <= e.to <= |t| && front == t[start..e.from]
    ensures WindowText(t, e, start) == front + e.replacement + t[e.to..]
  {
  }

  lemma {:induction false} PlaceOf(cfg: Config, t: Bytes) returns (pl: Place)
    requires cfg.Valid()
    ensures BuildRoot(cfg, t) == NodeHash(pl.root) && Canonical(cfg, pl, t)
    ensures pl.root.children == [] ==> t == []
  {
    var top := BuiltRoot(cfg, t);
    pl := Place(BuildRoot(cfg, t).node, top);
  }

  // ----- an edit set -----

  datatype EditOutcome = Applied(root: Hash, lo: nat, hi: nat) | InvalidEdit

  /** Apply an edit set to a stored root. A valid set gives exactly the root that building the
      spliced text from nothing gives; anything else is refused and nothing is written. The changed
      range is that of the new text: what is outside it was there before. */
  method ApplyEditSet(st: MemStorage, cfg: Config, root: Hash, edits: seq<Edit>, ghost t: Bytes)
      returns (r: EditOutcome)
    requires st.Sound() && cfg.Valid() && root in st.Stored() && root == BuildRoot(cfg, t)
    modifies st`chunks, st`chunkBytesWritten, st`nodes, st`nodeWrites
    ensures r.InvalidEdit? <==> !Ascending(edits, 0, |t|)
    ensures r.Applied? ==> r.root == BuildRoot(cfg, Splice(t, edits)) && r.root in st.Stored()
    ensures r.Applied? && edits != [] ==> Outside(t, edits, r.lo, r.hi)
    ensures edits == [] ==> r == Applied(root, 0, 0)
    ensures r.InvalidEdit? || edits == [] ==> st.Stored() == old(st.Stored())
    ensures st.Sound() && old(st.Stored()) <= st.Stored()
  {
    ghost var pl := PlaceOf(cfg, t);
    assert Reads(st, root, pl.top, t);
    hide Canonical, Reads, Ascending, SpliceFrom, Closed, TextOf, Outside;
    var len, _ := Totals(st, root, pl.top, t);
    var ok := ValidateEdits(edits, len);
    if !ok {
      return InvalidEdit;
    }
    if edits == [] {
      NothingSpliced(t);
      return Applied(root, 0, 0);
    }
    r := ApplyAll(st, cfg, root, edits, t);
  }

  /** The root after all edits, and the range of the new text they can have changed. */
  method ApplyAll(st: MemStorage, cfg: Config, root: Hash, edits: seq<Edit>, ghost t: Bytes) returns (r: EditOutcome)
    requires st.Sound() && cfg.Valid() && root in st.Stored() && root == BuildRoot(cfg, t)
    requires edits != [] && Ascending(edits, 0, |t|)
    modifies st`chunks, st`chunkBytesWritten, st`nodes, st`nodeWrites
    ensures r.Applied? && r.root == BuildRoot(cfg, Splice(t, edits)) && r.root in st.Stored()
    ensures Outside(t, edits, r.lo, r.hi)
    ensures st.Sound() && old(st.Stored()) <= st.Stored()
  {
    hide Ascending, BuildRoot, Closed, Outside, Settles, Splice, TotalDelta;
    var cur := ApplyBackwards(st, cfg, root, edits, t);
    var delta := SumDeltas(edits);
    var lo := edits[0].from;
    OutsideHolds(t, edits);
    r := Applied(cur, lo, Max(edits[|edits| - 1].to + delta, lo));
  }

  lemma {:induction false} NothingSpliced(t: Bytes)
    ensures Ascending([], 0, |t|) && Splice(t, []) == t
  {
    assert t[0..] == t;
  }

  /** Apply the edits one by one, the last first, so that the offsets of the others stay good. */
  method ApplyBackwards(st: MemStorage, cfg: Config, root: Hash, edits: seq<Edit>, ghost t: Bytes) returns (cur: Hash)
    requires st.Sound() && cfg.Valid() && root in st.Stored() && root == BuildRoot(cfg, t) && Ascending(edits, 0, |t|)
    modifies st`chunks, st`chunkBytesWritten, st`nodes, st`nodeWrites
    ensures cur == BuildRoot(cfg, Splice(t, edits)) && cur in st.Stored()
    ensures st.Sound() && old(st.Stored()) <= st.Stored()
  {
    cur := root;
    var i := |edits|;
    AscendingSuffix(t, edits, i);
    assert edits[i..] == [] && t[0..] == t;
    while i > 0
      invariant i <= |edits| && Ascending(edits[i..], 0, |t|)
      invariant st.Sound() && old(st.Stored()) <= st.Stored() && cur in st.Stored()
      invariant cur == BuildRoot(cfg, Splice(t, edits[i..]))
    {
      i := i - 1;
      AscendingSuffix(t, edits, i);
      assert edits[i..][0] == edits[i] && edits[i..][1..] == edits[i + 1..];
      SpliceFirstLast(t, edits[i..]);
      cur := ApplyOne(st, cfg, cur, edits[i], Splice(t, edits[i + 1..]));
    }
    assert edits[0..] == edits;
  }

  /** [lo, hi) of the new text is where it can differ, from the first edit to the last: before it is the old
      text up to the first, behind it the old text from the last on. */
  ghost predicate Outside(t: Bytes, edits: seq<Edit>, lo: nat, hi: nat)
    requires edits != [] && Ascending(edits, 0, |t|)
  {
    var t', to := Splice(t, edits), edits[|edits| - 1].to;
    && lo == edits[0].from <= hi <= |t'| && lo <= |t| && to <= |t| && |t'| - hi == |t| - to
    && t'[..lo] == t[..lo] && t'[hi..] == t[to..]
  }

  lemma {:induction false} OutsideHolds(t: Bytes, edits: seq<Edit>)
    requires edits != [] && Ascending(edits, 0, |t|)
    ensures 0 <= edits[0].from <= edits[|edits| - 1].to + TotalDelta(edits)
    ensures Outside(t, edits, edits[0].from, edits[|edits| - 1].to + TotalDelta(edits))
  {
    hide TotalDelta, SpliceFrom, Ascending, Splice;
    HeadKept(t, edits);
    LastEnd(t, edits);
    TailKept(t, edits);
  }

  lemma {:induction false} TailKept(t: Bytes, edits: seq<Edit>)
    requires edits != [] && Ascending(edits, 0, |t|)
    ensures var to := edits[|edits| - 1].to;
      to <= |t| && 0 <= to + TotalDelta(edits) <= |Splice(t, edits)|
      && Splice(t, edits)[to + TotalDelta(edits)..] == t[to..]
  {
    hide TotalDelta, SpliceFrom, Ascending;
    SpliceTail(t, edits, 0);
  }

  lemma {:induction false} HeadKept(t: Bytes, edits: seq<Edit>)
    requires edits != [] && Ascending(edits, 0, |t|)
    ensures edits[0].from <= |t| && edits[0].from <= |Splice(t, edits)|
    ensures Splice(t, edits)[..edits[0].from] == t[..edits[0].from]
  {
    var e := edits[0];
    HeadOfConcat(t[0..e.from], e.replacement, SpliceFrom(t, edits[1..], e.to));
  }

  lemma {:induction false} LastEnd(t: Bytes, edits: seq<Edit>)
    requires edits != [] && Ascending(edits, 0, |t|)
    ensures edits[0].from <= edits[|edits| - 1].to + TotalDelta(edits)
  {
    var e, rest := edits[0], edits[1..];
    TailStart(t, rest, e.to);
    if rest != [] {
      assert rest[|rest| - 1] == edits[|edits| - 1];
    }
  }

  lemma {:induction false} HeadOfConcat(x: Bytes, y: Bytes, z: Bytes)
    ensures (x + y + z)[..|x|] == x
  {
  }

  /** The last edit ends, in the new text, no earlier than the edits start. */
  lemma {:induction false} TailStart(t: Bytes, edits: seq<Edit>, at: nat)
    requires Ascending(edits, at, |t|)
    ensures edits != [] ==> at <= edits[|edits| - 1].to + TotalDelta(edits)
    ensures edits == [] ==> TotalDelta(edits) == 0
  {
    SpliceTail(t, edits, at);
  }

  method SumDeltas(edits: seq<Edit>) returns (delta: int)
    ensures delta == TotalDelta(edits)
  {
    delta := 0;
    var i := 0;
    assert edits[0..] == edits;
    while i < |edits|
      invariant i <= |edits| && delta + TotalDelta(edits[i..]) == TotalDelta(edits)
    {
      assert edits[i..][0] == edits[i] && edits[i..][1..] == edits[i + 1..];
      delta := delta + edits[i].Delta();
      i := i + 1;
    }
  }

  lemma {:induction false} AscendingSuffix(t: Bytes, edits: seq<Edit>, i: nat)
    requires Ascending(edits, 0, |t|) && i <= |edits|
    ensures Ascending(edits[i..], 0, |t|)
    decreases i
  {
    if i == 0 {
      assert edits[0..] == edits;
    } else {
      SpliceSplit(t, edits[1..], edits[0].to);
      AscendingSuffix(t, edits[1..], i - 1);
      assert edits[1..][i - 1..] == edits[i..];
    }
  }
}
