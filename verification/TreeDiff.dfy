/** Changed runs between two stored trees. */
module TreeDiff {
  import opened Text
  import opened Nodes
  import opened Storage
  import opened Tree
  import opened Navigation
  import opened Splicing
  import opened Scripts
  import opened SequenceDiff
  import opened ByteEdits
  import opened SharedEnds

  /** Bytes [aFrom, aTo) of one document became bytes [bFrom, bTo) of the other: a hunk over bytes. */
  type ChangedRun = Hunk

  /** The budget of the leaf diff. */
  const MAX_LEAF_D: nat := 2048

  // ----- diffs inside diffs -----

  function Place(rs: seq<ChangedRun>, x: nat, y: nat): (r: seq<ChangedRun>)
    ensures |r| == |rs|
  {
    seq(|rs|, i requires 0 <= i < |rs| => Hunk(rs[i].aFrom + x, rs[i].aTo + x, rs[i].bFrom + y, rs[i].bTo + y))
  }

  lemma SameJoin<T>(a: seq<T>, b: seq<T>, i: nat, m: nat, i': nat, j: nat, n: nat, j': nat)
    requires Same(a, b, i, m, j, n) && Same(a, b, m, i', n, j')
    ensures Same(a, b, i, i', j, j')
  {
    CutAt(a, i, m, i');
    CutAt(b, j, n, j');
  }

  lemma CutAt<T>(t: seq<T>, i: nat, m: nat, j: nat)
    requires i <= m <= j <= |t|
    ensures t[i..j] == t[i..m] + t[m..j]
  {
  }

  lemma SameInside<T>(a: seq<T>, b: seq<T>, x: nat, x': nat, y: nat, y': nat, i: nat, i': nat, j: nat, j': nat)
    requires x <= x' <= |a| && y <= y' <= |b| && Same(a[x..x'], b[y..y'], i, i', j, j')
    ensures Same(a, b, x + i, x + i', y + j, y + j')
  {
    SliceInside(a, x, x', i, i');
    SliceInside(b, y, y', j, j');
  }

  lemma SliceInside<T>(t: seq<T>, x: nat, x': nat, i: nat, i': nat)
    requires x <= x' <= |t| && i <= i' <= x' - x
    ensures t[x..x'][i..i'] == t[x + i..x + i']
  {
    var inner, direct := t[x..x'][i..i'], t[x + i..x + i'];
    assert forall k | 0 <= k < |inner| :: inner[k] == t[x..x'][i + k] == direct[k];
  }

  lemma UpToMore<T>(a: seq<T>, b: seq<T>, hs: seq<Hunk>, x: nat, y: nat, x': nat, y': nat)
    requires ScriptUpTo(a, b, hs, x, y) && Same(a, b, x, x', y, y')
    ensures ScriptUpTo(a, b, hs, x', y')
  {
    SameJoin(a, b, EndA(hs, |hs|), x, x', EndB(hs, |hs|), y, y');
  }

  lemma UpToSnoc<T>(a: seq<T>, b: seq<T>, hs: seq<Hunk>, x: nat, y: nat, h: Hunk)
    requires ScriptUpTo(a, b, hs, x, y) && h.Valid() && h.aTo <= |a| && h.bTo <= |b|
    requires Same(a, b, x, h.aFrom, y, h.bFrom) && (hs != [] ==> EndA(hs, |hs|) < h.aFrom)
    ensures ScriptUpTo(a, b, hs + [h], h.aTo, h.bTo)
  {
    UpToMore(a, b, hs, x, y, h.aFrom, h.bFrom);
    FollowSnoc(a, b, hs, h);
    SameNothing(a, b, h.aTo, h.bTo);
  }

  /** A diff of two stretches, placed where they lie, continues a diff of what is before them. */
  lemma {:induction false} Nest<T>(a: seq<T>, b: seq<T>, hs: seq<Hunk>, x: nat, x': nat, y: nat, y': nat,
      inner: seq<Hunk>, i: nat, j: nat)
    requires x <= x' <= |a| && y <= y' <= |b| && ScriptUpTo(a, b, hs, x, y)
    requires ScriptUpTo(a[x..x'], b[y..y'], inner, i, j)
    requires hs != [] ==> EndA(hs, |hs|) < x
    ensures ScriptUpTo(a, b, hs + Place(inner, x, y), x + i, y + j)
    decreases |inner|
  {
    hide AllFollow, Same;
    if inner == [] {
      assert hs + Place(inner, x, y) == hs;
      SameInside(a, b, x, x', y, y', 0, i, 0, j);
      UpToMore(a, b, hs, x, y, x + i, y + j);
    } else {
      var front, h := inner[..|inner| - 1], inner[|inner| - 1];
      assert inner == front + [h];
      FollowPrefix(a[x..x'], b[y..y'], front, h);
      Nest(a, b, hs, x, x', y, y', front, h.aFrom, h.bFrom);
      NestLast(a, b, hs, x, x', y, y', front, h);
      SameInside(a, b, x, x', y, y', h.aTo, i, h.bTo, j);
      var hs' := hs + Place(inner, x, y);
      UpToMore(a, b, hs', x + h.aTo, y + h.bTo, x + i, y + j);
    }
  }

  lemma NestLast<T>(a: seq<T>, b: seq<T>, hs: seq<Hunk>, x: nat, x': nat, y: nat, y': nat, front: seq<Hunk>, h: Hunk)
    requires x <= x' <= |a| && y <= y' <= |b| && AllFollow(a[x..x'], b[y..y'], front + [h])
    requires hs != [] ==> EndA(hs, |hs|) < x
    requires ScriptUpTo(a, b, hs + Place(front, x, y), x + h.aFrom, y + h.bFrom)
    ensures ScriptUpTo(a, b, hs + Place(front + [h], x, y), x + h.aTo, y + h.bTo)
  {
    assert Follows(a[x..x'], b[y..y'], front + [h], |front|);
    var g := Hunk(h.aFrom + x, h.aTo + x, h.bFrom + y, h.bTo + y);
    var done := hs + Place(front, x, y);
    if front != [] {
      assert done[|done| - 1] == Place(front, x, y)[|front| - 1];
    } else {
      assert done == hs;
    }
    SameNothing(a, b, g.aFrom, g.bFrom);
    UpToSnoc(a, b, done, x + h.aFrom, y + h.bFrom, g);
    assert hs + Place(front + [h], x, y) == done + [g];
  }

  // ----- edits as runs -----

  /** The runs so far turn a[..x] into b[..y]; splicing the edits left turns the rest into the rest. */
  ghost predicate Converting(a: Bytes, b: Bytes, left: seq<Edit>, runs: seq<ChangedRun>, x: nat, y: nat) {
    && ScriptUpTo(a, b, runs, x, y)
    && Ascending(left, x, |a|) && b[y..] == SpliceFrom(a, left, x)
    && Distinct(left) && (runs != [] && left != [] ==> EndA(runs, |runs|) < left[0].from)
  }

  lemma ThreeParts(t: Bytes, y: nat, p: Bytes, q: Bytes, r: Bytes)
    requires y <= |t| && t[y..] == p + q + r
    ensures var m, n := y + |p|, y + |p| + |q|;
      n <= |t| && t[y..m] == p && t[m..n] == q && t[n..] == r
  {
    var m, n := y + |p|, y + |p| + |q|;
    assert t[y..m] == t[y..][..|p|];
    assert t[m..n] == t[y..][|p|..|p| + |q|];
    assert t[n..] == t[y..][|p| + |q|..];
  }

  lemma ConvertStep(a: Bytes, b: Bytes, left: seq<Edit>, runs: seq<ChangedRun>, x: nat, y: nat)
    requires Converting(a, b, left, runs, x, y) && left != []
    ensures x <= left[0].from <= left[0].to
    ensures var e := left[0];
      var bFrom := y + e.from - x;
      var bTo := bFrom + |e.replacement|;
      Converting(a, b, left[1..], runs + [Hunk(e.from, e.to, bFrom, bTo)], e.to, bTo)
  {
    var e := left[0];
    var bFrom := y + e.from - x;
    var bTo := bFrom + |e.replacement|;
    ThreeParts(b, y, a[x..e.from], e.replacement, SpliceFrom(a, left[1..], e.to));
    DistinctTail(left);
    hide SpliceFrom, Ascending, AllFollow, Distinct;
    UpToSnoc(a, b, runs, x, y, Hunk(e.from, e.to, bFrom, bTo));
  }

  lemma DistinctTail(edits: seq<Edit>)
    requires Distinct(edits) && edits != []
    ensures Distinct(edits[1..]) && (edits[0].from < edits[0].to || edits[0].replacement != [])
    ensures |edits| > 1 ==> edits[0].to < edits[1].from
  {
  }

  lemma Converted(a: Bytes, b: Bytes, runs: seq<ChangedRun>, x: nat, y: nat)
    requires Converting(a, b, [], runs, x, y)
    ensures Script(a, b, runs)
  {
    assert a[x..|a|] == a[x..] && b[y..|b|] == b[y..];
    UpToMore(a, b, runs, x, y, |a|, |b|);
  }

  /** An offset of the one text in the other, what changed before it having added `delta` bytes. */
  function Moved(off: nat, delta: int): nat {
    if off + delta >= 0 then off + delta else 0
  }

  /** Edits as the stretches of the two texts that differ. */
  function EditRuns(edits: seq<Edit>, delta: int): seq<ChangedRun> {
    if edits == [] then []
    else
      var e := edits[0];
      var from := Moved(e.from, delta);
      [Hunk(e.from, e.to, from, from + |e.replacement|)] + EditRuns(edits[1..], delta + e.Delta())
  }

  lemma RunsStep(inner: seq<ChangedRun>, left: seq<Edit>, delta: int)
    requires left != [] && left[0].from + delta >= 0
    ensures var e := left[0];
      inner + EditRuns(left, delta) ==
        (inner + [Hunk(e.from, e.to, e.from + delta, e.from + delta + |e.replacement|)])
          + EditRuns(left[1..], delta + e.Delta())
  {
  }

  lemma RunsDone(inner: seq<ChangedRun>, delta: int)
    ensures inner + EditRuns([], delta) == inner
  {
  }

  /** A diff of whole leaves, split into the differences inside them. */
  method RefineRun(st: MemStorage, a: Hash, b: Hash, r: ChangedRun, ghost aTop: nat, ghost bTop: nat, ghost ta: Bytes,
      ghost tb: Bytes)
        returns (out: seq<ChangedRun>, ghost inner: seq<ChangedRun>)
    requires Reads(st, a, aTop, ta) && Reads(st, b, bTop, tb)
    requires r.aFrom <= r.aTo <= |ta| && r.bFrom <= r.bTo <= |tb|
    ensures Script(ta[r.aFrom..r.aTo], tb[r.bFrom..r.bTo], inner) && out == Place(inner, r.aFrom, r.bFrom)
    ensures inner == EditRuns(LineEdits(ta[r.aFrom..r.aTo], tb[r.bFrom..r.bTo]), 0)
  {
    var at := MaterializeRange(st, a, r.aFrom, r.aTo, aTop, ta);
    var bt := MaterializeRange(st, b, r.bFrom, r.bTo, bTop, tb);
    assert at == ta[r.aFrom..r.aTo] && bt == tb[r.bFrom..r.bTo];
    var edits := ByteDiff(at, bt);
    out, inner := EditsAsRuns(at, bt, edits, r.aFrom, r.bFrom);
  }

  method EditsAsRuns(ghost at: Bytes, ghost bt: Bytes, edits: seq<Edit>, aFrom: nat, bFrom: nat)
      returns (out: seq<ChangedRun>, ghost inner: seq<ChangedRun>)
    requires Ascending(edits, 0, |at|) && Splice(at, edits) == bt && Distinct(edits)
    ensures Script(at, bt, inner) && out == Place(inner, aFrom, bFrom) && inner == EditRuns(edits, 0)
  {
    hide Converting, Script, EditRuns;
    out, inner := [], [];
    var delta := 0;
    var i := 0;
    ghost var left, x: nat, y: nat := edits, 0, 0;
    StartConverting(at, bt, edits);
    while i < |edits|
      invariant i <= |edits| && left == edits[i..] && y == x + delta
      invariant Converting(at, bt, left, inner, x, y)
      invariant out == Place(inner, aFrom, bFrom)
      invariant inner + EditRuns(left, delta) == EditRuns(edits, 0)
    {
      var e := edits[i];
      ConvertStep(at, bt, left, inner, x, y);
      RunsStep(inner, left, delta);
      var from := e.from + delta;
      var end := from + |e.replacement|;
      out := out + [Hunk(aFrom + e.from, aFrom + e.to, bFrom + from, bFrom + end)];
      inner := inner + [Hunk(e.from, e.to, from, end)];
      delta := delta + e.Delta();
      left, x, y := left[1..], e.to, end;
      i := i + 1;
    }
    Converted(at, bt, inner, x, y);
    RunsDone(inner, delta);
  }

  lemma StartConverting(a: Bytes, b: Bytes, edits: seq<Edit>)
    requires Ascending(edits, 0, |a|) && Splice(a, edits) == b && Distinct(edits)
    ensures Converting(a, b, edits, [], 0, 0)
  {
    assert b[0..] == b;
    assert a[0..0] == b[0..0];
  }

  // ----- the diff of two trees -----

  /** A text as the leaves before a middle, those of the middle and those behind. */
  ghost predicate Spelt(t: Bytes, p: seq<Child>, m: seq<Child>, q: seq<Child>) {
    AllWellFormed(0, p) && AllWellFormed(0, m) && AllWellFormed(0, q) && t == ChildrenText(p + m + q)
  }

  /** Where leaf `i` of the middle lies. */
  ghost function LeafOffset(p: seq<Child>, ls: seq<Child>, i: nat): nat
    requires i <= |ls|
  {
    SumBytes(p) + SumBytes(ls[..i])
  }

  /** Two ends that together are no longer than the whole leave a middle. */
  lemma MiddleLeaves(whole: seq<Child>, p: seq<Child>, rest: seq<Child>, front: seq<Child>, q: seq<Child>)
      returns (m: seq<Child>)
    requires AllWellFormed(0, whole) && whole == p + rest && whole == front + q
    requires SumBytes(p) + SumBytes(q) <= SumBytes(whole)
    ensures whole == p + m + q
  {
    SumsConcat(p, rest);
    if |q| > |rest| {
      LongerIsHeavier(whole, p, rest, front, q);
    }
    m := rest[..|rest| - |q|];
    SuffixOf(whole, p, rest, front, q);
    assert p + (m + q) == p + m + q;
  }

  lemma SuffixOf(whole: seq<Child>, p: seq<Child>, rest: seq<Child>, front: seq<Child>, q: seq<Child>)
    requires whole == p + rest && whole == front + q && |q| <= |rest|
    ensures rest == rest[..|rest| - |q|] + q
  {
    assert whole[|whole| - |q|..] == q;
    assert rest[|rest| - |q|..] == q;
  }

  lemma LongerIsHeavier(whole: seq<Child>, p: seq<Child>, rest: seq<Child>, front: seq<Child>, q: seq<Child>)
    requires AllWellFormed(0, whole) && whole == p + rest && whole == front + q && |q| > |rest|
    ensures SumBytes(q) > SumBytes(rest)
  {
    SuffixOf(whole, front, q, p, rest);
    var over := q[..|q| - |rest|];
    SumsConcat(over, rest);
    assert WellFormed(0, whole[|front|]) && over[0] == whole[|front|];
  }

  lemma SpeltText(t: Bytes, p: seq<Child>, m: seq<Child>, q: seq<Child>)
    requires Spelt(t, p, m, q)
    ensures t == ChildrenText(p) + ChildrenText(m) + ChildrenText(q)
    ensures |ChildrenText(p)| == SumBytes(p)
  {
    ChildrenTextConcat(p + m, q);
    ChildrenTextConcat(p, m);
    SumsAreTotals(0, p);
  }

  lemma PartOfLeaves(m: seq<Child>, i: nat, j: nat)
    requires i <= j <= |m| && AllWellFormed(0, m)
    ensures AllWellFormed(0, m[..i]) && AllWellFormed(0, m[i..j]) && AllWellFormed(0, m[j..])
    ensures ChildrenText(m) == ChildrenText(m[..i]) + ChildrenText(m[i..j]) + ChildrenText(m[j..])
    ensures SumBytes(m[..i]) == |ChildrenText(m[..i])| && SumBytes(m[..j]) == SumBytes(m[..i]) + |ChildrenText(m[i..j])|
  {
    assert m == m[..i] + m[i..j] + m[j..];
    assert m[..j] == m[..i] + m[i..j];
    WellFormedConcat(0, m[..i] + m[i..j], m[j..]);
    WellFormedConcat(0, m[..i], m[i..j]);
    ChildrenTextConcat(m[..i] + m[i..j], m[j..]);
    ChildrenTextConcat(m[..i], m[i..j]);
    SumsConcat(m[..i], m[i..j]);
    SumsAreTotals(0, m[..i]);
    SumsAreTotals(0, m[i..j]);
  }

  lemma MiddleSlice(x: Bytes, a: Bytes, b: Bytes, c: Bytes, z: Bytes)
    ensures (x + (a + b + c) + z)[|x| + |a|..|x| + |a| + |b|] == b
  {
  }

  /** The text between two leaf offsets is what the leaves between them hold. */
  lemma LeafSlice(t: Bytes, p: seq<Child>, m: seq<Child>, q: seq<Child>, i: nat, j: nat)
    requires Spelt(t, p, m, q) && i <= j <= |m|
    ensures LeafOffset(p, m, i) <= LeafOffset(p, m, j) <= |t|
    ensures t[LeafOffset(p, m, i)..LeafOffset(p, m, j)] == ChildrenText(m[i..j])
    ensures i < j ==> LeafOffset(p, m, i) < LeafOffset(p, m, j)
  {
    SpeltText(t, p, m, q);
    PartOfLeaves(m, i, j);
    MiddleSlice(ChildrenText(p), ChildrenText(m[..i]), ChildrenText(m[i..j]), ChildrenText(m[j..]), ChildrenText(q));
    if i < j {
      assert WellFormed(0, m[i..j][0]);
      EntryTotals(0, m[i..j][0]);
    }
  }

  function Hashes(ls: seq<Child>): (hs: seq<Hash>)
    ensures |hs| == |ls|
  {
    seq(|ls|, i requires 0 <= i < |ls| => ls[i].hash)
  }

  /** Leaves with the same hashes are the same leaves. */
  lemma SameHashesSameLeaves(m: seq<Child>, n: seq<Child>, i: nat, i': nat, j: nat, j': nat)
    requires AllWellFormed(0, m) && AllWellFormed(0, n) && Same(Hashes(m), Hashes(n), i, i', j, j')
    ensures m[i..i'] == n[j..j']
  {
    var hm, hn := Hashes(m), Hashes(n);
    assert |hm[i..i']| == i' - i && |hn[j..j']| == j' - j;
    forall k | 0 <= k < i' - i ensures m[i..i'][k] == n[j..j'][k] {
      assert hm[i..i'][k] == hm[i + k] == m[i + k].hash;
      assert hn[j..j'][k] == hn[j + k] == n[j + k].hash;
      assert WellFormed(0, m[i + k]) && WellFormed(0, n[j + k]);
      SameHashSameEntry(0, m[i + k], 0, n[j + k]);
    }
  }

  /** So their bytes are shared. */
  lemma SharedLeaves(ta: Bytes, tb: Bytes, p: seq<Child>, m: seq<Child>, n: seq<Child>, q: seq<Child>, i: nat, i': nat,
      j: nat, j': nat)
    requires Spelt(ta, p, m, q) && Spelt(tb, p, n, q) && Same(Hashes(m), Hashes(n), i, i', j, j')
    ensures Same(ta, tb, LeafOffset(p, m, i), LeafOffset(p, m, i'), LeafOffset(p, n, j), LeafOffset(p, n, j'))
  {
    SameHashesSameLeaves(m, n, i, i', j, j');
    LeafSlice(ta, p, m, q, i, i');
    LeafSlice(tb, p, n, q, j, j');
  }

  lemma SharedPrefixText(ta: Bytes, tb: Bytes, p: seq<Child>, m: seq<Child>, n: seq<Child>, q: seq<Child>)
    requires Spelt(ta, p, m, q) && Spelt(tb, p, n, q)
    ensures ScriptUpTo(ta, tb, [], LeafOffset(p, m, 0), LeafOffset(p, n, 0))
  {
    SpeltText(ta, p, m, q);
    SpeltText(tb, p, n, q);
    assert m[..0] == [] && n[..0] == [];
    assert ta[0..SumBytes(p)] == ChildrenText(p) == tb[0..SumBytes(p)];
  }

  lemma SharedSuffixText(ta: Bytes, tb: Bytes, p: seq<Child>, m: seq<Child>, n: seq<Child>, q: seq<Child>)
    requires Spelt(ta, p, m, q) && Spelt(tb, p, n, q)
    ensures Same(ta, tb, LeafOffset(p, m, |m|), |ta|, LeafOffset(p, n, |n|), |tb|)
  {
    SuffixText(ta, p, m, q);
    SuffixText(tb, p, n, q);
  }

  lemma SuffixText(t: Bytes, p: seq<Child>, m: seq<Child>, q: seq<Child>)
    requires Spelt(t, p, m, q)
    ensures LeafOffset(p, m, |m|) <= |t| && t[LeafOffset(p, m, |m|)..|t|] == ChildrenText(q)
  {
    SpeltText(t, p, m, q);
    SumsAreTotals(0, m);
    assert m[..|m|] == m;
    var x := ChildrenText(p) + ChildrenText(m);
    assert (x + ChildrenText(q))[|x|..] == ChildrenText(q);
  }

  // ----- reading the middle -----

  lemma {:induction false} RefOffsets(ls: seq<Child>, boff: nat, loff: nat, i: nat)
    requires i < |ls|
    ensures Refs(ls, boff, loff)[i].byteOff == boff + SumBytes(ls[..i]) && Refs(ls, boff, loff)[i].hash == ls[i].hash
    decreases i
  {
    if i == 0 {
      assert ls[..0] == [];
    } else {
      RefOffsets(ls[1..], boff + ls[0].nbytes, loff + ls[0].nlines, i - 1);
      assert ls[..i] == [ls[0]] + ls[1..][..i - 1];
      assert ls[..i][1..] == ls[1..][..i - 1];
    }
  }

  /** The offset of a leaf of the middle, or the middle's end. */
  method OffsetOf(refs: seq<LeafRef>, i: nat, end: nat, ghost p: seq<Child>, ghost m: seq<Child>) returns (off: nat)
    requires refs == Refs(m, SumBytes(p), SumLines(p)) && i <= |m| && end == SumBytes(p) + SumBytes(m)
    ensures off == LeafOffset(p, m, i)
  {
    if i < |refs| {
      RefOffsets(m, SumBytes(p), SumLines(p), i);
      off := refs[i].byteOff;
    } else {
      assert m[..i] == m;
      off := end;
    }
  }

  method LeafHashes(refs: seq<LeafRef>, ghost p: seq<Child>, ghost m: seq<Child>) returns (hs: seq<Hash>)
    requires refs == Refs(m, SumBytes(p), SumLines(p))
    ensures hs == Hashes(m)
  {
    hs := [];
    var i := 0;
    while i < |refs|
      invariant i <= |refs| && hs == Hashes(m)[..i]
    {
      RefOffsets(m, SumBytes(p), SumLines(p), i);
      hs := hs + [refs[i].hash];
      i := i + 1;
    }
  }

  method LeavesIn(st: MemStorage, root: Hash, from: nat, end: nat, ghost top: nat, ghost t: Bytes, ghost p: seq<Child>,
      ghost m: seq<Child>, ghost q: seq<Child>) returns (refs: seq<LeafRef>)
    requires Reads(st, root, top, t) && Down(root.node.children, top) == p + m + q && AllWellFormed(0, m)
    requires from == SumBytes(p) && end == SumBytes(p) + SumBytes(m)
    ensures refs == Refs(m, SumBytes(p), SumLines(p))
  {
    var n := st.NodeAt(root);
    refs := CollectLeaves(st, n, 0, 0, from, end, top);
    LeavesBetween(p, m, q);
  }

  // ----- putting it together -----

  /** The two leaf sequences: shared ends `p` and `q`, and the middles between them. */
  datatype Frame = Frame(p: seq<Child>, m: seq<Child>, n: seq<Child>, q: seq<Child>)
  {
    ghost predicate Of(ta: Bytes, tb: Bytes) {
      Spelt(ta, p, m, q) && Spelt(tb, p, n, q)
    }
  }

  /** The hunks before the i-th are refined into runs. */
  ghost predicate Done(ta: Bytes, tb: Bytes, f: Frame, hunks: seq<Hunk>, i: nat, runs: seq<ChangedRun>) {
    && i <= |hunks| && EndA(hunks, i) <= |f.m| && EndB(hunks, i) <= |f.n|
    && ScriptUpTo(ta, tb, runs, LeafOffset(f.p, f.m, EndA(hunks, i)), LeafOffset(f.p, f.n, EndB(hunks, i)))
    && (i == 0 ==> runs == [])
  }

  lemma {:induction false} DoneStep(ta: Bytes, tb: Bytes, f: Frame, hunks: seq<Hunk>, i: nat, runs: seq<ChangedRun>,
      inner: seq<ChangedRun>)
    requires f.Of(ta, tb) && AllFollow(Hashes(f.m), Hashes(f.n), hunks) && i < |hunks|
    requires Done(ta, tb, f, hunks, i, runs)
    requires HunkInRange(ta, tb, f, hunks[i])
    requires var r := RunOf(f, hunks[i]); Script(ta[r.aFrom..r.aTo], tb[r.bFrom..r.bTo], inner)
    ensures var r := RunOf(f, hunks[i]); Done(ta, tb, f, hunks, i + 1, runs + Place(inner, r.aFrom, r.bFrom))
  {
    hide ChildrenText, Hashes, LeafOffset, Place, Same, ScriptUpTo, Spelt;
    var h, r := hunks[i], RunOf(f, hunks[i]);
    assert Follows(Hashes(f.m), Hashes(f.n), hunks, i);
    SharedLeaves(ta, tb, f.p, f.m, f.n, f.q, EndA(hunks, i), h.aFrom, EndB(hunks, i), h.bFrom);
    if i > 0 {
      LeafSlice(ta, f.p, f.m, f.q, EndA(hunks, i), h.aFrom);
    }
    hide AllFollow, Hashes, Spelt, LeafOffset, Same;
    UpToMore(ta, tb, runs, LeafOffset(f.p, f.m, EndA(hunks, i)), LeafOffset(f.p, f.n, EndB(hunks, i)), r.aFrom,
      r.bFrom);
    EndsBefore(ta, tb, runs, LeafOffset(f.p, f.m, EndA(hunks, i)), LeafOffset(f.p, f.n, EndB(hunks, i)));
    Nest(ta, tb, runs, r.aFrom, r.aTo, r.bFrom, r.bTo, inner, r.aTo - r.aFrom, r.bTo - r.bFrom);
  }

  lemma EndsBefore<T>(a: seq<T>, b: seq<T>, hs: seq<Hunk>, x: nat, y: nat)
    requires ScriptUpTo(a, b, hs, x, y)
    ensures EndA(hs, |hs|) <= x && EndB(hs, |hs|) <= y
  {
  }

  ghost function RunOf(f: Frame, h: Hunk): ChangedRun
    requires h.aFrom <= h.aTo <= |f.m| && h.bFrom <= h.bTo <= |f.n|
  {
    Hunk(LeafOffset(f.p, f.m, h.aFrom), LeafOffset(f.p, f.m, h.aTo), LeafOffset(f.p, f.n, h.bFrom),
      LeafOffset(f.p, f.n, h.bTo))
  }

  ghost predicate HunkInRange(ta: Bytes, tb: Bytes, f: Frame, h: Hunk) {
    && h.aFrom <= h.aTo <= |f.m| && h.bFrom <= h.bTo <= |f.n|
    && var r := RunOf(f, h);
    r.aFrom <= r.aTo <= |ta| && r.bFrom <= r.bTo <= |tb|
  }

  lemma HunksInRange(ta: Bytes, tb: Bytes, f: Frame, hunks: seq<Hunk>, i: nat)
    requires f.Of(ta, tb) && AllFollow(Hashes(f.m), Hashes(f.n), hunks) && i < |hunks|
    ensures HunkInRange(ta, tb, f, hunks[i])
  {
    var h := hunks[i];
    assert Follows(Hashes(f.m), Hashes(f.n), hunks, i);
    LeafSlice(ta, f.p, f.m, f.q, h.aFrom, h.aTo);
    LeafSlice(tb, f.p, f.n, f.q, h.bFrom, h.bTo);
  }

  lemma AllHunksInRange(ta: Bytes, tb: Bytes, f: Frame, hunks: seq<Hunk>)
    requires f.Of(ta, tb) && AllFollow(Hashes(f.m), Hashes(f.n), hunks)
    ensures AllInRange(ta, tb, f, hunks)
  {
    hide HunkInRange;
    forall i | 0 <= i < |hunks| ensures HunkInRange(ta, tb, f, hunks[i]) {
      HunksInRange(ta, tb, f, hunks, i);
    }
  }

  lemma AllDone(ta: Bytes, tb: Bytes, f: Frame, hunks: seq<Hunk>, runs: seq<ChangedRun>)
    requires f.Of(ta, tb) && Script(Hashes(f.m), Hashes(f.n), hunks) && Done(ta, tb, f, hunks, |hunks|, runs)
    ensures Script(ta, tb, runs)
  {
    hide AllFollow, Hashes, Spelt, LeafOffset, Same;
    SharedLeaves(ta, tb, f.p, f.m, f.n, f.q, EndA(hunks, |hunks|), |f.m|, EndB(hunks, |hunks|), |f.n|);
    SharedSuffixText(ta, tb, f.p, f.m, f.n, f.q);
    UpToMore(ta, tb, runs, LeafOffset(f.p, f.m, EndA(hunks, |hunks|)), LeafOffset(f.p, f.n, EndB(hunks, |hunks|)),
      LeafOffset(f.p, f.m, |f.m|), LeafOffset(f.p, f.n, |f.n|));
    UpToMore(ta, tb, runs, LeafOffset(f.p, f.m, |f.m|), LeafOffset(f.p, f.n, |f.n|), |ta|, |tb|);
  }

  // ----- what is reported -----

  /** The differences inside a run of leaves, placed where they lie. */
  ghost function RunsIn(ta: Bytes, tb: Bytes, r: ChangedRun): seq<ChangedRun>
    requires r.aFrom <= r.aTo <= |ta| && r.bFrom <= r.bTo <= |tb|
  {
    Place(EditRuns(LineEdits(ta[r.aFrom..r.aTo], tb[r.bFrom..r.bTo]), 0), r.aFrom, r.bFrom)
  }

  ghost predicate AllInRange(ta: Bytes, tb: Bytes, f: Frame, hunks: seq<Hunk>) {
    forall i | 0 <= i < |hunks| :: HunkInRange(ta, tb, f, hunks[i])
  }

  /** Those of the first `i` hunks of leaves. */
  ghost function RefinedTo(ta: Bytes, tb: Bytes, f: Frame, hunks: seq<Hunk>, i: nat): seq<ChangedRun>
    requires AllInRange(ta, tb, f, hunks) && i <= |hunks|
  {
    if i == 0 then []
    else
      assert HunkInRange(ta, tb, f, hunks[i - 1]);
      RefinedTo(ta, tb, f, hunks, i - 1) + RunsIn(ta, tb, RunOf(f, hunks[i - 1]))
  }

  /** Between two leaf sequences, the runs are those of the leaf diff of their middles, refined. */
  ghost predicate ReportedIn(al: seq<Child>, bl: seq<Child>, ta: Bytes, tb: Bytes, f: Frame, runs: seq<ChangedRun>) {
    var hunks := DiffHunks(Hashes(f.m), Hashes(f.n), MAX_LEAF_D);
    && f.Of(ta, tb) && f.p + f.m + f.q == al && f.p + f.n + f.q == bl
    && AllInRange(ta, tb, f, hunks) && runs == RefinedTo(ta, tb, f, hunks, |hunks|)
  }

  ghost predicate ReportedOver(al: seq<Child>, bl: seq<Child>, ta: Bytes, tb: Bytes, runs: seq<ChangedRun>) {
    exists f :: ReportedIn(al, bl, ta, tb, f, runs)
  }

  /** The shared ends of the two trees, and the leaves of the middle on each side. */
  method Middles(st: MemStorage, a: Hash, b: Hash, ghost aTop: nat, ghost bTop: nat, ghost ta: Bytes, ghost tb: Bytes)
      returns (al: seq<LeafRef>, bl: seq<LeafRef>, aEnd: nat, bEnd: nat, ghost f: Frame)
    requires Reads(st, a, aTop, ta) && Reads(st, b, bTop, tb)
    ensures f.Of(ta, tb)
    ensures f.p + f.m + f.q == Down(a.node.children, aTop) && f.p + f.n + f.q == Down(b.node.children, bTop)
    ensures al == Refs(f.m, SumBytes(f.p), SumLines(f.p)) && aEnd == SumBytes(f.p) + SumBytes(f.m)
    ensures bl == Refs(f.n, SumBytes(f.p), SumLines(f.p)) && bEnd == SumBytes(f.p) + SumBytes(f.n)
  {
    hide Down, SumBytes, SumLines, Refs;
    var aLen, _ := Totals(st, a, aTop, ta);
    var bLen, _ := Totals(st, b, bTop, tb);
    var na := st.NodeAt(a);
    var nb := st.NodeAt(b);
    LeavesSpell(aTop, na.children, ta);
    LeavesSpell(bTop, nb.children, tb);
    var aStart, bStart, p, ra, rb := CommonPrefix(st, na, nb, aTop, bTop);
    SumsConcat(p, ra);
    SumsConcat(p, rb);
    var aSuf, bSuf, fa, fb, q := CommonSuffix(st, na, nb, aLen - aStart, bLen - bStart, aTop, bTop);
    ghost var m := MiddleLeaves(Down(na.children, aTop), p, ra, fa, q);
    ghost var n := MiddleLeaves(Down(nb.children, bTop), p, rb, fb, q);
    CutSums(p, m, q);
    CutSums(p, n, q);
    aEnd := aLen - aSuf;
    bEnd := bLen - bSuf;
    al := LeavesIn(st, a, aStart, aEnd, aTop, ta, p, m, q);
    bl := LeavesIn(st, b, bStart, bEnd, bTop, tb, p, n, q);
    f := Frame(p, m, n, q);
  }

  lemma LeavesSpell(top: nat, cs: seq<Child>, t: Bytes)
    requires AllWellFormed(top, cs) && ChildrenText(cs) == t
    ensures AllWellFormed(0, Down(cs, top)) && ChildrenText(Down(cs, top)) == t && SumBytes(Down(cs, top)) == |t|
  {
    DownFits(top, cs, top);
    DownText(top, cs, top);
    SumsAreTotals(top, cs);
  }

  lemma CutSums(p: seq<Child>, m: seq<Child>, q: seq<Child>)
    requires AllWellFormed(0, p + m + q)
    ensures SumBytes(p + m + q) == SumBytes(p) + SumBytes(m) + SumBytes(q)
    ensures AllWellFormed(0, p) && AllWellFormed(0, m) && AllWellFormed(0, q)
  {
    SumsConcat(p + m, q);
    SumsConcat(p, m);
    WellFormedConcat(0, p + m, q);
    WellFormedConcat(0, p, m);
  }

  /** The changed runs between two trees are a diff of their texts, whatever subtrees the walks
      skipped and however the two depths differ. */
  method ChangedRuns(st: MemStorage, a: Hash, b: Hash, ghost aTop: nat, ghost bTop: nat, ghost ta: Bytes,
      ghost tb: Bytes)
      returns (runs: seq<ChangedRun>)
    requires Reads(st, a, aTop, ta) && Reads(st, b, bTop, tb)
    ensures Script(ta, tb, runs)
    ensures if a == b then runs == []
      else ReportedOver(Down(a.node.children, aTop), Down(b.node.children, bTop), ta, tb, runs)
  {
    if a == b {
      NothingChanged(ta);
      return [];
    }
    var al, bl, aEnd, bEnd, f := Middles(st, a, b, aTop, bTop, ta, tb);
    var ah := LeafHashes(al, f.p, f.m);
    var bh := LeafHashes(bl, f.p, f.n);
    var hunks := DiffSeq(ah, bh, MAX_LEAF_D);
    DiffIsScript(ah, bh, MAX_LEAF_D);
    runs := RefineHunks(st, a, b, al, bl, aEnd, bEnd, hunks, f, aTop, bTop, ta, tb);
    assert ReportedIn(Down(a.node.children, aTop), Down(b.node.children, bTop), ta, tb, f, runs);
  }

  /** Refine every hunk of leaves. */
  method RefineHunks(st: MemStorage, a: Hash, b: Hash, al: seq<LeafRef>, bl: seq<LeafRef>, aEnd: nat, bEnd: nat,
      hunks: seq<Hunk>, ghost f: Frame, ghost aTop: nat, ghost bTop: nat, ghost ta: Bytes, ghost tb: Bytes)
      returns (runs: seq<ChangedRun>)
    requires Reads(st, a, aTop, ta) && Reads(st, b, bTop, tb)
    requires f.Of(ta, tb) && Script(Hashes(f.m), Hashes(f.n), hunks)
    requires al == Refs(f.m, SumBytes(f.p), SumLines(f.p)) && aEnd == SumBytes(f.p) + SumBytes(f.m)
    requires bl == Refs(f.n, SumBytes(f.p), SumLines(f.p)) && bEnd == SumBytes(f.p) + SumBytes(f.n)
    ensures Script(ta, tb, runs)
    ensures AllInRange(ta, tb, f, hunks) && runs == RefinedTo(ta, tb, f, hunks, |hunks|)
  {
    hide Reads, Frame.Of, Hashes, LeafOffset, ScriptUpTo, DiffHunks, AllFollow, LineEdits, Place, EditRuns, SumBytes,
      SumLines, Refs;
    NothingDone(ta, tb, f, hunks);
    AllHunksInRange(ta, tb, f, hunks);
    runs := [];
    var i := 0;
    while i < |hunks|
      invariant i <= |hunks| && Done(ta, tb, f, hunks, i, runs) && runs == RefinedTo(ta, tb, f, hunks, i)
    {
      var r := HunkBytes(al, bl, aEnd, bEnd, hunks, i, f, ta, tb);
      var more, inner := RefineRun(st, a, b, r, aTop, bTop, ta, tb);
      DoneStep(ta, tb, f, hunks, i, runs, inner);
      runs := runs + more;
      i := i + 1;
    }
    AllDone(ta, tb, f, hunks, runs);
  }

  lemma NothingDone(ta: Bytes, tb: Bytes, f: Frame, hunks: seq<Hunk>)
    requires f.Of(ta, tb) && Script(Hashes(f.m), Hashes(f.n), hunks)
    ensures Done(ta, tb, f, hunks, 0, []) && AllFollow(Hashes(f.m), Hashes(f.n), hunks)
  {
    SharedPrefixText(ta, tb, f.p, f.m, f.n, f.q);
  }

  method HunkBytes(al: seq<LeafRef>, bl: seq<LeafRef>, aEnd: nat, bEnd: nat, hunks: seq<Hunk>, i: nat, ghost f: Frame,
      ghost ta: Bytes, ghost tb: Bytes) returns (r: ChangedRun)
    requires f.Of(ta, tb) && Script(Hashes(f.m), Hashes(f.n), hunks) && i < |hunks|
    requires al == Refs(f.m, SumBytes(f.p), SumLines(f.p)) && aEnd == SumBytes(f.p) + SumBytes(f.m)
    requires bl == Refs(f.n, SumBytes(f.p), SumLines(f.p)) && bEnd == SumBytes(f.p) + SumBytes(f.n)
    ensures AllFollow(Hashes(f.m), Hashes(f.n), hunks)
    ensures HunkInRange(ta, tb, f, hunks[i]) && r == RunOf(f, hunks[i])
  {
    HunksInRange(ta, tb, f, hunks, i);
    var h := hunks[i];
    var aFrom := OffsetOf(al, h.aFrom, aEnd, f.p, f.m);
    var aTo := OffsetOf(al, h.aTo, aEnd, f.p, f.m);
    var bFrom := OffsetOf(bl, h.bFrom, bEnd, f.p, f.n);
    var bTo := OffsetOf(bl, h.bTo, bEnd, f.p, f.n);
    r := Hunk(aFrom, aTo, bFrom, bTo);
  }

  lemma NothingChanged<T>(t: seq<T>)
    ensures Script(t, t, [])
  {
  }
}
