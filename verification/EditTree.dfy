/** Localised edits: re-chunk a window around the edit and share everything else. */
module EditTree {
  import opened Text
  import opened Nodes
  import opened Storage
  import opened Chunker
  import opened Tree
  import opened Cursors
  import opened Replacing
  import opened EditLocality

  /** Where an old leaf ended, counted in the window text, and the position of the leaf behind it. */
  datatype Bound = Bound(pos: nat, after: Option<Path>)

  /** The old leaves after a boundary are the leaves of the rest of the window text `w`. */
  ghost predicate BoundOk(p: ChunkParams, pl: Place, w: Bytes, b: Bound)
    requires p.Valid()
  {
    && b.pos <= |w|
    && (b.after.Some? ==> ValidPath(pl, 0, b.after.value))
    && FromOpt(b.after) == Leaves(p, w[b.pos..])
  }

  ghost predicate BoundsOk(p: ChunkParams, pl: Place, w: Bytes, bounds: seq<Bound>)
    requires p.Valid()
  {
    forall i | 0 <= i < |bounds| :: BoundOk(p, pl, w, bounds[i])
  }

  /** What is still to load: `rest` is behind the first `skip` bytes of the leaves from `suffix` on. */
  ghost predicate SuffixOk(p: ChunkParams, pl: Place, suffix: Option<Path>, skip: nat, rest: Bytes)
    requires p.Valid()
  {
    match suffix
    case None => rest == []
    case Some(c) => ValidPath(pl, 0, c) && skip < c.Entry().nbytes && exists pre: Bytes :: Behind(p, c, pre, skip, rest)
  }

  ghost predicate Behind(p: ChunkParams, c: Path, pre: Bytes, skip: nat, rest: Bytes)
    requires p.Valid() && c.InRange()
  {
    |pre| == skip && c.From() == Leaves(p, pre + rest)
  }

  /** Loading the next old leaf. */
  method Fetch(st: MemStorage, c: Path, skip: nat, ghost p: ChunkParams, ghost pl: Place, ghost rest: Bytes)
      returns (bytes: Bytes, after: Option<Path>, ghost rest': Bytes)
    requires st.Sound() && NodeHash(pl.root) in st.Stored() && p.Valid() && SuffixOk(p, pl, Some(c), skip, rest)
    ensures rest == bytes + rest' && bytes != []
    ensures after.Some? ==> ValidPath(pl, 0, after.value)
    ensures FromOpt(after) == Leaves(p, rest')
    ensures SuffixOk(p, pl, after, 0, rest')
  {
    ghost var pre: Bytes :| Behind(p, c, pre, skip, rest);
    PathStored(st.Stored(), pl, 0, c);
    assert WellFormed(0, c.frame.node.children[c.frame.idx]);
    var chunk := st.ChunkAt(c.Entry().hash);
    after := NextOf(st, c, pl, 0);
    rest' := LeafText(p, pre + rest, chunk, c.From());
    bytes := chunk[skip..];
    Skipped(pre, rest, chunk, rest');
    AfterOk(p, pl, after, rest');
  }

  lemma {:induction false} Skipped(pre: Bytes, rest: Bytes, chunk: Bytes, rest': Bytes)
    requires pre + rest == chunk + rest' && |pre| <= |chunk|
    ensures rest == chunk[|pre|..] + rest'
  {
    assert (pre + rest)[|pre|..] == rest;
    assert (chunk + rest')[|pre|..] == chunk[|pre|..] + rest';
  }

  lemma {:induction false} Loaded(w: Bytes, buf: Bytes, bytes: Bytes, rest: Bytes)
    requires w == buf + (bytes + rest)
    ensures w == (buf + bytes) + rest && w[|buf + bytes|..] == rest
  {
  }

  lemma {:induction false} LeafText(p: ChunkParams, q: Bytes, chunk: Bytes, es: seq<Child>) returns (x: Bytes)
    requires p.Valid() && Leaves(p, q) == es && es != [] && es[0] == LeafOf(chunk) && chunk != []
    ensures q == chunk + x && Leaves(p, x) == es[1..]
  {
    LeavesWellFormed(p, q);
    x := ChildrenText(es[1..]);
    assert es == [es[0]] + es[1..];
    LeafFirst(p, chunk, x, es[1..]);
  }

  lemma {:induction false} AfterOk(p: ChunkParams, pl: Place, after: Option<Path>, rest: Bytes)
    requires p.Valid() && (after.Some? ==> ValidPath(pl, 0, after.value)) && FromOpt(after) == Leaves(p, rest)
    ensures SuffixOk(p, pl, after, 0, rest)
  {
    LeavesWellFormed(p, rest);
    if after.Some? {
      var c := after.value;
      assert WellFormed(0, c.frame.node.children[c.frame.idx]);
      EntryTotals(0, c.Entry());
      assert [] + rest == rest;
      assert Behind(p, c, [], 0, rest);
    }
  }

  /** The loaded part of the window, the cursor of the next old leaf to load with how much of that
      leaf the edit has replaced, and the old boundaries passed while loading. */
  datatype Loader = Loader(buf: Bytes, suffix: Option<Path>, skip: nat, bounds: seq<Bound>)

  ghost predicate LoaderOk(p: ChunkParams, pl: Place, w: Bytes, l: Loader)
    requires p.Valid()
  {
    && l.buf <= w
    && SuffixOk(p, pl, l.suffix, l.skip, w[|l.buf|..])
    && BoundsOk(p, pl, w, l.bounds)
  }

  lemma {:induction false} LoadStep(p: ChunkParams, pl: Place, w: Bytes, l: Loader, bytes: Bytes, after: Option<Path>,
      rest: Bytes)
    requires p.Valid() && LoaderOk(p, pl, w, l) && w[|l.buf|..] == bytes + rest
    requires after.Some? ==> ValidPath(pl, 0, after.value)
    requires FromOpt(after) == Leaves(p, rest) && SuffixOk(p, pl, after, 0, rest)
    ensures LoaderOk(p, pl, w, Loader(l.buf + bytes, after, 0, l.bounds + [Bound(|l.buf + bytes|, after)]))
  {
    assert w == l.buf + (bytes + rest);
    Loaded(w, l.buf, bytes, rest);
    assert BoundOk(p, pl, w, Bound(|l.buf + bytes|, after));
  }

  /** Load old leaves until the bytes in hand settle the next cut, or there are no more to load. */
  method Fill(st: MemStorage, p: ChunkParams, l: Loader, pos: nat, ghost pl: Place, ghost w: Bytes) returns (l': Loader)
    requires st.Sound() && NodeHash(pl.root) in st.Stored() && p.Valid() && LoaderOk(p, pl, w, l) && pos <= |l.buf|
    ensures LoaderOk(p, pl, w, l') && pos <= |l'.buf|
    ensures p.Lookahead() <= |l'.buf| - pos || l'.suffix.None?
  {
    l' := l;
    while |l'.buf| - pos < p.Lookahead() && l'.suffix.Some?
      invariant LoaderOk(p, pl, w, l') && pos <= |l'.buf|
      decreases |w| - |l'.buf|
    {
      var bytes, after;
      ghost var rest;
      bytes, after, rest := Fetch(st, l'.suffix.value, l'.skip, p, pl, w[|l'.buf|..]);
      LoadStep(p, pl, w, l', bytes, after, rest);
      var buf := l'.buf + bytes;
      l' := Loader(buf, after, 0, l'.bounds + [Bound(|buf|, after)]);
    }
  }

  /** Cut the next chunk off a window with enough look-ahead, and store it. The decision is the one
      the whole remaining text `v` would give, so the `None` of an undecided cut does not arise. */
  method NextChunk(st: MemStorage, p: ChunkParams, window: Bytes, eof: bool, ghost v: Bytes) returns (leaf: Child)
    requires st.Sound() && p.Valid() && window != [] && window <= v
    requires (eof <==> |window| == |v|) && (p.Lookahead() <= |window| || eof)
    modifies st`chunks, st`chunkBytesWritten
    ensures st.Sound() && old(st.Stored()) <= st.Stored() && leaf.hash in st.Stored()
    ensures 0 < leaf.nbytes == CutLen(p, v) <= |window| && leaf == LeafOf(v[..leaf.nbytes])
  {
    assert v[..|window|] == window;
    LookaheadIsFinal(p, v, |window|);
    var cut := Cut(p, window, eof);
    var chunk := window[..cut.value];
    assert chunk == v[..cut.value];
    st.PutChunk(ChunkHash(chunk), chunk);
    leaf := LeafOf(chunk);
  }

  lemma {:induction false} MoreToLoad(p: ChunkParams, pl: Place, w: Bytes, l: Loader)
    requires p.Valid() && LoaderOk(p, pl, w, l)
    ensures l.suffix.None? <==> |l.buf| == |w|
  {
    if l.suffix.Some? {
      var c, rest := l.suffix.value, w[|l.buf|..];
      var pre: Bytes :| Behind(p, c, pre, l.skip, rest);
      LeavesWellFormed(p, pre + rest);
      assert WellFormed(0, c.From()[0]);
      EntryTotals(0, c.Entry());
      assert |ChildrenText(c.From())| >= |TextOf(c.From()[0].hash)|;
    }
  }

  /** The new leaves reach up to the remaining text `v` of the window text `w`. */
  ghost predicate Chunked(p: ChunkParams, w: Bytes, v: Bytes, leaves: seq<Child>)
    requires p.Valid()
  {
    leaves + Leaves(p, v) == Leaves(p, w)
  }

  lemma {:induction false} NothingChunked(p: ChunkParams, pl: Place, w: Bytes, l: Loader)
    requires p.Valid() && LoaderOk(p, pl, w, l)
    ensures |l.buf| <= |w| && w[0..] == w && Chunked(p, w, w, [])
  {
    assert [] + Leaves(p, w) == Leaves(p, w);
  }

  lemma {:induction false} ChunkedStep(p: ChunkParams, w: Bytes, v: Bytes, leaves: seq<Child>, leaf: Child)
    requires p.Valid() && Chunked(p, w, v, leaves) && v != []
    requires 0 < leaf.nbytes == CutLen(p, v) && leaf == LeafOf(v[..leaf.nbytes])
    ensures Chunked(p, w, v[leaf.nbytes..], leaves + [leaf])
  {
    CutSplit(p, v, leaf.nbytes);
    Regroup(leaves, leaf, Leaves(p, v[leaf.nbytes..]));
  }

  lemma {:induction false} CutSplit(p: ChunkParams, v: Bytes, n: nat)
    requires p.Valid() && v != [] && n == CutLen(p, v)
    ensures Leaves(p, v) == [LeafOf(v[..n])] + Leaves(p, v[n..])
  {
    assert v[..n] + v[n..] == v;
    CutFirst(p, v[..n], v[n..]);
  }

  lemma {:induction false} Regroup(leaves: seq<Child>, leaf: Child, rest: seq<Child>)
    ensures leaves + ([leaf] + rest) == (leaves + [leaf]) + rest
  {
  }

  /** Drop the old boundaries the new chunks have passed. */
  method DropPassed(p: ChunkParams, l: Loader, pos: nat, ghost pl: Place, ghost w: Bytes) returns (l': Loader)
    requires p.Valid() && LoaderOk(p, pl, w, l)
    ensures LoaderOk(p, pl, w, l') && l'.buf == l.buf
    ensures l'.bounds != [] ==> pos <= l'.bounds[0].pos
  {
    l' := l;
    while l'.bounds != [] && l'.bounds[0].pos < pos
      invariant LoaderOk(p, pl, w, l') && l'.buf == l.buf
      decreases |l'.bounds|
    {
      l' := l'.(bounds := l'.bounds[1..]);
    }
  }

  /** One more chunk of the window, decided, stored and recorded. */
  method ChunkOnce(st: MemStorage, p: ChunkParams, window: Bytes, eof: bool, leaves: seq<Child>, ghost w: Bytes,
      ghost v: Bytes)
      returns (leaves': seq<Child>, n: nat)
    requires st.Sound() && p.Valid() && window != [] && window <= v && (eof <==> |window| == |v|)
    requires Chunked(p, w, v, leaves) && (p.Lookahead() <= |window| || eof)
    requires AllIn(st.Stored(), leaves)
    modifies st`chunks, st`chunkBytesWritten
    ensures st.Sound() && old(st.Stored()) <= st.Stored() && AllIn(st.Stored(), leaves')
    ensures 0 < n <= |window| && Chunked(p, w, v[n..], leaves')
  {
    var leaf := NextChunk(st, p, window, eof, v);
    ChunkedStep(p, w, v, leaves, leaf);
    leaves' := leaves + [leaf];
    n := leaf.nbytes;
  }

  lemma {:induction false} PrefixDrop(buf: Bytes, w: Bytes, pos: nat)
    requires buf <= w && pos <= |buf|
    ensures buf[pos..] <= w[pos..]
  {
  }

  /** The new leaves, then the old ones from `k` on, are the leaves of the whole window text. */
  ghost predicate Resynced(p: ChunkParams, pl: Place, w: Bytes, leaves: seq<Child>, k: Option<Path>)
    requires p.Valid()
  {
    (k.Some? ==> ValidPath(pl, 0, k.value)) && leaves + FromOpt(k) == Leaves(p, w)
  }

  lemma {:induction false} ResyncedAtEnd(p: ChunkParams, pl: Place, w: Bytes, leaves: seq<Child>)
    requires p.Valid() && Chunked(p, w, [], leaves)
    ensures Resynced(p, pl, w, leaves, None)
  {
    assert Leaves(p, []) == [];
  }

  lemma {:induction false} ResyncedAtBound(p: ChunkParams, pl: Place, w: Bytes, leaves: seq<Child>, l: Loader)
    requires p.Valid() && LoaderOk(p, pl, w, l) && l.bounds != [] && l.bounds[0].pos <= |w|
    requires Chunked(p, w, w[l.bounds[0].pos..], leaves)
    ensures Resynced(p, pl, w, leaves, l.bounds[0].after)
  {
    assert BoundOk(p, pl, w, l.bounds[0]);
  }

  /** Re-chunk the window until a new boundary behind the replacement meets an old one, or the
      document ends. Whatever follows is shared. */
  method Rechunk(st: MemStorage, p: ChunkParams, l0: Loader, ghost pl: Place, ghost w: Bytes)
      returns (leaves: seq<Child>, k: Option<Path>)
    requires st.Sound() && NodeHash(pl.root) in st.Stored() && p.Valid() && LoaderOk(p, pl, w, l0)
    modifies st`chunks, st`chunkBytesWritten
    ensures st.Sound() && old(st.Stored()) <= st.Stored() && AllIn(st.Stored(), leaves)
    ensures Resynced(p, pl, w, leaves, k)
  {
    hide SuffixOk, BoundsOk, Chunked, Resynced, Leaves;
    var replEnd := |l0.buf|;
    var l := l0;
    leaves := [];
    var pos: nat := 0;
    ghost var v := w;
    NothingChunked(p, pl, w, l);
    while true
      invariant st.Sound() && old(st.Stored()) <= st.Stored() && AllIn(st.Stored(), leaves)
      invariant LoaderOk(p, pl, w, l) && pos <= |l.buf| && v == w[pos..] && Chunked(p, w, v, leaves)
      decreases |w| - pos
    {
      l := Fill(st, p, l, pos, pl, w);
      MoreToLoad(p, pl, w, l);
      if pos == |l.buf| {
        ResyncedAtEnd(p, pl, w, leaves);
        k := None;
        return;
      }
      var n;
      PrefixDrop(l.buf, w, pos);
      leaves, n := ChunkOnce(st, p, l.buf[pos..], l.suffix.None?, leaves, w, v);
      v := v[n..];
      pos := pos + n;
      l := DropPassed(p, l, pos, pl, w);
      if pos >= replEnd && l.bounds != [] && l.bounds[0].pos == pos {
        ResyncedAtBound(p, pl, w, leaves, l);
        k := l.bounds[0].after;
        return;
      }
    }
  }
}
