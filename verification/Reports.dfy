/** What the diff of two documents reports, and how it comes out for small ones. */
module Reports {
  import opened Text
  import opened Chunker
  import opened Lines
  import opened Nodes
  import opened Tree
  import opened Splicing
  import opened Scripts
  import opened SequenceDiff
  import opened ByteEdits
  import opened TreeDiff

  /** The runs reported between the trees of two texts. */
  ghost predicate Reported(cfg: Config, t: Bytes, u: Bytes, runs: seq<ChangedRun>)
    requires cfg.Valid()
  {
    if t == u then runs == [] else ReportedOver(Leaves(cfg.chunking, t), Leaves(cfg.chunking, u), t, u, runs)
  }

  // ----- documents of one chunk -----

  lemma OneChunk(p: ChunkParams, t: Bytes)
    requires p.Valid() && 0 < |t| <= p.min
    ensures Leaves(p, t) == [LeafOf(t)]
  {
    var none: Bytes := [];
    assert t[..|t|] == t && t[|t|..] == none && Chunks(p, none) == [];
    assert Chunks(p, t) == [t] + [] == [t];
    assert [t][1..] == [] && LeafEntries([]) == [];
  }

  lemma SecondHunk<T>(a: seq<T>, b: seq<T>, hs: seq<Hunk>)
    requires Script(a, b, hs) && |hs| >= 2
    ensures hs[0].Valid() && hs[0].aTo < hs[1].aFrom <= |a| && hs[1].bFrom <= |b|
    ensures hs[1].aFrom - hs[0].aTo == hs[1].bFrom - hs[0].bTo
  {
    assert Follows(a, b, hs, 0) && Follows(a, b, hs, 1);
    assert |a[hs[0].aTo..hs[1].aFrom]| == |b[hs[0].bTo..hs[1].bFrom]|;
  }

  /** A diff of two elements that differ is one hunk. */
  lemma OneByOne<T>(x: T, y: T, hs: seq<Hunk>)
    requires x != y && Script([x], [y], hs)
    ensures hs == [Hunk(0, 1, 0, 1)]
  {
    assert [x][0..1] == [x] && [y][0..1] == [y];
    if |hs| >= 2 {
      SecondHunk([x], [y], hs);
      assert false;
    } else if |hs| == 1 {
      assert Follows([x], [y], hs, 0);
    }
  }

  lemma SharedFirst<T>(p: seq<T>, m: seq<T>, n: seq<T>, q: seq<T>)
    requires p != []
    ensures p + m + q != [] && p + n + q != [] && (p + m + q)[0] == (p + n + q)[0]
  {
  }

  lemma SharedLast<T>(p: seq<T>, m: seq<T>, n: seq<T>, q: seq<T>)
    requires q != []
    ensures var a, b := p + m + q, p + n + q; a != [] && b != [] && a[|a| - 1] == b[|b| - 1]
  {
  }

  /** Of two different leaves, none is in an end that both sequences share. */
  lemma OneLeafEach(c: Child, d: Child, f: Frame)
    requires c != d && f.p + f.m + f.q == [c] && f.p + f.n + f.q == [d]
    ensures f == Frame([], [c], [d], [])
  {
    if f.p != [] {
      SharedFirst(f.p, f.m, f.n, f.q);
      assert false;
    }
    if f.q != [] {
      SharedLast(f.p, f.m, f.n, f.q);
      assert false;
    }
    assert f.p + f.m + f.q == f.m && f.p + f.n + f.q == f.n;
  }

  /** Between two different documents of one chunk, the runs are the edits of their line diff. */
  lemma {:induction false} OneLeafReport(cfg: Config, t: Bytes, u: Bytes, runs: seq<ChangedRun>)
    requires cfg.Valid() && t != u && 0 < |t| <= cfg.chunking.min && 0 < |u| <= cfg.chunking.min
    requires Reported(cfg, t, u, runs)
    ensures runs == EditRuns(LineEdits(t, u), 0)
  {
    hide LineEdits, EditRuns, Leaves, DiffHunks;
    OneChunk(cfg.chunking, t);
    OneChunk(cfg.chunking, u);
    var c, d := LeafOf(t), LeafOf(u);
    var f :| ReportedIn([c], [d], t, u, f, runs);
    OneLeafEach(c, d, f);
    LeafHunk(c, d);
    LeafRun(t, u, f);
  }

  lemma LeafHunk(c: Child, d: Child)
    requires c.hash != d.hash
    ensures DiffHunks(Hashes([c]), Hashes([d]), MAX_LEAF_D) == [Hunk(0, 1, 0, 1)]
  {
    hide DiffHunks;
    assert Hashes([c]) == [c.hash] && Hashes([d]) == [d.hash];
    DiffIsScript([c.hash], [d.hash], MAX_LEAF_D);
    OneByOne(c.hash, d.hash, DiffHunks([c.hash], [d.hash], MAX_LEAF_D));
  }

  lemma LeafRun(t: Bytes, u: Bytes, f: Frame)
    requires f == Frame([], [LeafOf(t)], [LeafOf(u)], [])
    requires AllInRange(t, u, f, [Hunk(0, 1, 0, 1)])
    ensures RefinedTo(t, u, f, [Hunk(0, 1, 0, 1)], 1) == EditRuns(LineEdits(t, u), 0)
  {
    hide LineEdits, EditRuns;
    var h := Hunk(0, 1, 0, 1);
    assert HunkInRange(t, u, f, [h][0]);
    assert f.m[..0] == [] && f.m[..1] == f.m && f.n[..0] == [] && f.n[..1] == f.n;
    assert RunOf(f, h) == Hunk(0, |t|, 0, |u|);
    assert t[0..|t|] == t && u[0..|u|] == u;
    PlacedHere(EditRuns(LineEdits(t, u), 0));
    assert RefinedTo(t, u, f, [h], 0) == [];
  }

  lemma PlacedHere(rs: seq<ChangedRun>)
    ensures Place(rs, 0, 0) == rs
  {
  }

  /** The run is over what the edit replaces, and in the text from `off` on it holds what that puts in. */
  predicate RunIs(run: ChangedRun, e: Edit, u: Bytes, off: nat) {
    && run.aFrom == e.from && run.aTo == e.to && off <= run.bFrom <= run.bTo <= off + |u|
    && u[run.bFrom - off..run.bTo - off] == e.replacement
  }

  lemma LaterRun(run: ChangedRun, e: Edit, head: Bytes, tail: Bytes, off: nat)
    requires RunIs(run, e, tail, off + |head|)
    ensures RunIs(run, e, head + tail, off)
  {
    var i, j := run.bFrom - off - |head|, run.bTo - off - |head|;
    assert (head + tail)[|head| + i..|head| + j] == tail[i..j];
  }

  lemma FirstRun(t: Bytes, edits: seq<Edit>, at: nat, off: nat)
    requires Ascending(edits, at, |t|) && edits != []
    ensures var e, u := edits[0], SpliceFrom(t, edits, at);
      var head := t[at..e.from] + e.replacement;
      && u == head + SpliceFrom(t, edits[1..], e.to)
      && EditRuns(edits, off - at)[1..] == EditRuns(edits[1..], off + |head| - e.to)
      && RunIs(EditRuns(edits, off - at)[0], e, u, off)
  {
    var e := edits[0];
    var head, tail := t[at..e.from] + e.replacement, SpliceFrom(t, edits[1..], e.to);
    assert off - at + e.Delta() == off + |head| - e.to;
    assert (head + tail)[e.from - at..|head|] == e.replacement;
  }

  /** There is one run for each edit. */
  lemma {:induction false} RunsAreEdits(t: Bytes, edits: seq<Edit>, at: nat, off: nat)
    requires Ascending(edits, at, |t|)
    ensures var runs, u := EditRuns(edits, off - at), SpliceFrom(t, edits, at);
      |runs| == |edits| && forall i | 0 <= i < |runs| :: RunIs(runs[i], edits[i], u, off)
    decreases |edits|
  {
    hide RunIs;
    if edits != [] {
      var e, rest := edits[0], edits[1..];
      var head := t[at..e.from] + e.replacement;
      RunsAreEdits(t, rest, e.to, off + |head|);
      FirstRun(t, edits, at, off);
      hide EditRuns, SpliceFrom;
      var runs, more := EditRuns(edits, off - at), EditRuns(rest, off + |head| - e.to);
      forall i | 1 <= i < |runs| ensures RunIs(runs[i], edits[i], SpliceFrom(t, edits, at), off) {
        assert runs[i] == more[i - 1] && edits[i] == rest[i - 1];
        LaterRun(runs[i], edits[i], head, SpliceFrom(t, rest, e.to), off);
      }
    }
  }

  // ----- one changed stretch of lines -----

  lemma {:induction false} SharedPrefixIs<T>(a: seq<T>, b: seq<T>, i: nat, n: nat)
    requires i <= n <= |a| && n <= |b| && forall k | i <= k < n :: a[k] == b[k]
    requires n < |a| && n < |b| ==> a[n] != b[n]
    ensures SharedPrefix(a, b, i) == n
    decreases n - i
  {
    if i < n {
      SharedPrefixIs(a, b, i + 1, n);
    }
  }

  lemma {:induction false} SharedSuffixIs<T>(x: seq<T>, y: seq<T>, s: seq<T>, pre: nat, i: nat)
    requires i <= |s| && pre <= |x| && pre <= |y|
    requires pre < |x| && pre < |y| ==> x[|x| - 1] != y[|y| - 1]
    ensures SharedSuffix(x + s, y + s, pre, i) == |s|
    decreases |s| - i
  {
    if i < |s| {
      SharedSuffixIs(x, y, s, pre, i + 1);
    }
  }

  /** The changed stretch between ends that are shared as far as they can be: one line for another, or
      lines for none. */
  predicate Changes<T(==)>(m: seq<T>, n: seq<T>, q: seq<T>) {
    if n == [] then m != [] && (q != [] ==> m[0] != q[0]) else |m| == 1 && |n| == 1 && m[0] != n[0]
  }

  lemma {:induction false} OneHunk<T>(p: seq<T>, m: seq<T>, n: seq<T>, q: seq<T>, maxD: nat)
    requires Changes(m, n, q)
    ensures DiffHunks(p + m + q, p + n + q, maxD) == [Hunk(|p|, |p| + |m|, |p|, |p| + |n|)]
  {
    hide CoreHunks, SharedPrefix, SharedSuffix;
    var a, b := p + m + q, p + n + q;
    SharedPrefixIs(a, b, 0, |p|);
    SharedSuffixIs(p + m, p + n, q, |p|, 0);
    assert a[|p|..|a| - |q|] == m && b[|p|..|b| - |q|] == n;
    OneCore(m, n, q, maxD);
  }

  lemma {:induction false} OneCore<T>(m: seq<T>, n: seq<T>, q: seq<T>, maxD: nat)
    requires Changes(m, n, q)
    ensures CoreHunks(m, n, maxD) == [Hunk(0, |m|, 0, |n|)]
  {
    if n != [] {
      hide CoreHunks;
      assert m == [m[0]] && n == [n[0]];
      CoreScript(m, n, maxD);
      OneByOne(m[0], n[0], CoreHunks(m, n, maxD));
    }
  }

  /** Where one stretch of lines changes, the edit is what is left of it between shared bytes. */
  lemma {:induction false} OneStretch(t: Bytes, u: Bytes, p: seq<Bytes>, m: seq<Bytes>, n: seq<Bytes>, q: seq<Bytes>)
    requires SplitLines(t) == p + m + q && SplitLines(u) == p + n + q && Changes(m, n, q)
    ensures var x, y, z := |Concat(p)|, |Concat(m)|, |Concat(n)|;
      x + y <= |t| && x + z <= |u| && LineEdits(t, u) == Trimmed(t, u, x, x + y, x, x + z)
  {
    hide DiffHunks, SplitLines, Trimmed;
    var al, bl := SplitLines(t), SplitLines(u);
    var h := Hunk(|p|, |p| + |m|, |p|, |p| + |n|);
    OneHunk(p, m, n, q, MAX_LINE_D);
    DiffIsScript(al, bl, MAX_LINE_D);
    OffsetsOrdered(t, h.aFrom, h.aTo);
    OffsetsOrdered(u, h.bFrom, h.bTo);
    FrontOffsets(p, m, q);
    FrontOffsets(p, n, q);
    assert EditsFor(t, u, [h], 0) == [];
    assert EditsFor(t, u, [h], 1) == [] + EditFor(t, u, h);
  }

  lemma FrontOffsets(p: seq<Bytes>, m: seq<Bytes>, q: seq<Bytes>)
    ensures Offset(p + m + q, |p|) == |Concat(p)| && Offset(p + m + q, |p| + |m|) == |Concat(p)| + |Concat(m)|
  {
    assert (p + m + q)[..|p|] == p && (p + m + q)[..|p| + |m|] == p + m;
    ConcatAppend(p, m);
  }

  lemma LinesAre(t: Bytes, ls: seq<Bytes>)
    requires AreLines(ls) && Concat(ls) == t
    ensures SplitLines(t) == ls
  {
    JoinSplits(ls);
  }

  /** Between two small documents in which one stretch of lines differs, what is left of it is reported. */
  lemma {:induction false} StretchReport(cfg: Config, t: Bytes, u: Bytes, p: seq<Bytes>, m: seq<Bytes>, n: seq<Bytes>,
      q: seq<Bytes>, e: Edit, runs: seq<ChangedRun>)
    requires cfg.Valid() && t != u && 0 < |t| <= cfg.chunking.min && 0 < |u| <= cfg.chunking.min
    requires AreLines(p + m + q) && AreLines(p + n + q) && Changes(m, n, q)
    requires t == Concat(p + m + q) && u == Concat(p + n + q)
    requires var x, y, z := |Concat(p)|, |Concat(m)|, |Concat(n)|;
      x + y <= |t| && x + z <= |u| ==> Trimmed(t, u, x, x + y, x, x + z) == [e]
    requires Reported(cfg, t, u, runs)
    ensures runs == [Hunk(e.from, e.to, e.from, e.from + |e.replacement|)]
  {
    hide Reported, AreLines, Trimmed, LineEdits;
    LinesAre(t, p + m + q);
    LinesAre(u, p + n + q);
    OneStretch(t, u, p, m, n, q);
    OneLeafReport(cfg, t, u, runs);
    assert [e][1..] == [] && EditRuns([], 0 + e.Delta()) == [];
  }
}
