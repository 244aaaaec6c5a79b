/** Why re-chunking a window is enough: which leaves an edit cannot change. */
module EditLocality {
  import opened Text
  import opened Nodes
  import opened Chunker
  import opened Tree

  /** Does the chunk of a leaf entry end in a newline? */
  predicate EndsLine(leaf: Child) {
    leaf.hash.ChunkHash? && leaf.hash.chunk != [] && leaf.hash.chunk[|leaf.hash.chunk| - 1] == NL
  }

  /** A text that begins with its first cut is that chunk's leaf, then the leaves of the rest. */
  lemma {:induction false} CutFirst(p: ChunkParams, chunk: Bytes, x: Bytes)
    requires p.Valid() && chunk != [] && CutLen(p, chunk + x) == |chunk|
    ensures Leaves(p, chunk + x) == [LeafOf(chunk)] + Leaves(p, x)
  {
    var t := chunk + x;
    assert t[..|chunk|] == chunk && t[|chunk|..] == x;
    assert Chunks(p, t)[1..] == Chunks(p, x);
  }

  /** The converse: a text whose leaves begin with that of `chunk`. */
  lemma {:induction false} LeafFirst(p: ChunkParams, chunk: Bytes, x: Bytes, rest: seq<Child>)
    requires p.Valid() && chunk != [] && Leaves(p, chunk + x) == [LeafOf(chunk)] + rest
    ensures CutLen(p, chunk + x) == |chunk| && Leaves(p, x) == rest
    ensures rest != [] ==> x != [] && p.min < |chunk|
  {
    var t := chunk + x;
    var c := CutLen(p, t);
    var leaf := LeafOf(t[..c]);
    assert Leaves(p, t)[0] == leaf == ([LeafOf(chunk)] + rest)[0];
    CutFirst(p, chunk, x);
    assert ([LeafOf(chunk)] + Leaves(p, x))[1..] == ([LeafOf(chunk)] + rest)[1..];
    if x == [] {
      assert Chunks(p, x) == [];
    }
  }

  /** A cut in front of a rest survives a change behind what the cut looked at. */
  lemma {:induction false} CutKept(p: ChunkParams, chunk: Bytes, x: Bytes, y: Bytes, n: nat)
    requires p.Valid() && chunk != [] && x != [] && CutLen(p, chunk + x) == |chunk|
    requires n <= |x| && n <= |y| && x[..n] == y[..n]
    requires chunk[|chunk| - 1] == NL || p.snap <= n
    ensures CutLen(p, chunk + y) == |chunk|
  {
    var s, t, shared := chunk + x, chunk + y, |chunk| + n;
    forall i | 0 <= i < shared ensures s[i] == t[i] {
      if i >= |chunk| {
        assert x[i - |chunk|] == x[..n][i - |chunk|] == y[..n][i - |chunk|] == y[i - |chunk|];
      }
    }
    CutStable(p, s, t, shared);
  }

  lemma {:induction false} TextCons(front: seq<Child>, x: Bytes)
    requires front != [] && front[0].hash.ChunkHash?
    ensures ChildrenText(front) + x == front[0].hash.chunk + (ChildrenText(front[1..]) + x)
  {
  }

  lemma {:induction false} EntriesCons(front: seq<Child>, back: seq<Child>)
    requires front != []
    ensures front + back == [front[0]] + (front[1..] + back)
  {
  }

  /** From any leaf on, the leaves are those of the remaining text. */
  lemma {:induction false} LeavesAfter(p: ChunkParams, front: seq<Child>, back: seq<Child>, x: Bytes)
    requires p.Valid() && AllWellFormed(0, front) && Leaves(p, ChildrenText(front) + x) == front + back
    ensures Leaves(p, x) == back
    decreases |front|
  {
    if front == [] {
      assert ChildrenText(front) + x == x && front + back == back;
    } else {
      assert WellFormed(0, front[0]);
      TextCons(front, x);
      EntriesCons(front, back);
      LeafFirst(p, front[0].hash.chunk, ChildrenText(front[1..]) + x, front[1..] + back);
      TailWellFormed(front);
      LeavesAfter(p, front[1..], back, x);
    }
  }

  /** Leaves whose cuts looked at nothing beyond the `n` bytes two rests share are the first leaves
      in front of either rest. */
  lemma {:induction false} StablePrefix(p: ChunkParams, front: seq<Child>, back: seq<Child>, x: Bytes, y: Bytes, n: nat)
    requires p.Valid() && AllWellFormed(0, front) && back != []
    requires Leaves(p, ChildrenText(front) + x) == front + back
    requires n <= |x| && n <= |y| && x[..n] == y[..n]
    requires front == [] || EndsLine(front[|front| - 1]) || p.snap <= n
    ensures Leaves(p, ChildrenText(front) + y) == front + Leaves(p, y)
    decreases |front|
  {
    hide Leaves, Settles, WellFormed;
    if front == [] {
      assert ChildrenText(front) + y == y && front + Leaves(p, y) == Leaves(p, y);
    } else {
      hide EndsLine, ChildrenText;
      StableHead(p, front, back, x, y, n);
      StablePrefix(p, front[1..], back, x, y, n);
      EntriesCons(front, Leaves(p, y));
    }
  }

  /** The step of StablePrefix: the first leaf stays, and the condition carries over to the others. */
  lemma {:induction false} StableHead(p: ChunkParams, front: seq<Child>, back: seq<Child>, x: Bytes, y: Bytes, n: nat)
    requires p.Valid() && AllWellFormed(0, front) && front != [] && back != []
    requires Leaves(p, ChildrenText(front) + x) == front + back
    requires n <= |x| && n <= |y| && x[..n] == y[..n]
    requires EndsLine(front[|front| - 1]) || p.snap <= n
    ensures AllWellFormed(0, front[1..]) && Leaves(p, ChildrenText(front[1..]) + x) == front[1..] + back
    ensures Leaves(p, ChildrenText(front) + y) == [front[0]] + Leaves(p, ChildrenText(front[1..]) + y)
  {
    assert WellFormed(0, front[0]);
    var chunk, rest := front[0].hash.chunk, ChildrenText(front[1..]);
    assert front[0] == LeafOf(chunk) && chunk != [];
    hide Leaves, TextOf, WellFormed, EndsLine;
    TextCons(front, x);
    TextCons(front, y);
    EntriesCons(front, back);
    LeafFirst(p, chunk, rest + x, front[1..] + back);
    TailWellFormed(front);
    NextReaches(p, front, back, x, n);
    KeptHead(p, chunk, rest, x, y, n);
  }

  lemma {:induction false} KeptHead(p: ChunkParams, chunk: Bytes, rest: Bytes, x: Bytes, y: Bytes, n: nat)
    requires p.Valid() && chunk != [] && rest + x != [] && CutLen(p, chunk + (rest + x)) == |chunk|
    requires n <= |x| && n <= |y| && x[..n] == y[..n]
    requires EndsLine(LeafOf(chunk)) || p.snap <= |rest| + n
    ensures Leaves(p, chunk + (rest + y)) == [LeafOf(chunk)] + Leaves(p, rest + y)
  {
    hide CutLen, Leaves;
    SharedBehind(rest, x, y, n);
    CutKept(p, chunk, rest + x, rest + y, |rest| + n);
    CutFirst(p, chunk, rest + y);
  }

  lemma {:induction false} TailWellFormed(front: seq<Child>)
    requires front != [] && AllWellFormed(0, front)
    ensures AllWellFormed(0, front[1..])
  {
    assert [front[0]] + front[1..] == front;
    WellFormedConcat(0, [front[0]], front[1..]);
  }

  lemma {:induction false} SharedBehind(rest: Bytes, x: Bytes, y: Bytes, n: nat)
    requires n <= |x| && n <= |y| && x[..n] == y[..n]
    ensures (rest + x)[..|rest| + n] == (rest + y)[..|rest| + n]
  {
    assert (rest + x)[..|rest| + n] == rest + x[..n];
    assert (rest + y)[..|rest| + n] == rest + y[..n];
  }

  /** An inner leaf's look-ahead stays within the next leaf, unless it is the last of the front. */
  lemma {:induction false} NextReaches(p: ChunkParams, front: seq<Child>, back: seq<Child>, x: Bytes, n: nat)
    requires p.Valid() && front != [] && back != [] && AllWellFormed(0, front[1..])
    requires Leaves(p, ChildrenText(front[1..]) + x) == front[1..] + back
    requires EndsLine(front[|front| - 1]) || p.snap <= n
    ensures EndsLine(front[0]) || p.snap <= |ChildrenText(front[1..])| + n
  {
    var rest := front[1..];
    if rest != [] {
      assert WellFormed(0, rest[0]);
      TextCons(rest, x);
      EntriesCons(rest, back);
      LeafFirst(p, rest[0].hash.chunk, ChildrenText(rest[1..]) + x, rest[1..] + back);
    }
  }
}
