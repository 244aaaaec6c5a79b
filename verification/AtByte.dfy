/** Finding the leaf that holds a byte offset. */
module Seeking {
  import opened Text
  import opened Nodes
  import opened Storage
  import opened Grouping
  import opened Cursors

  /** `i` is the entry that holds offset `off` when the entries start at offset `start`: the first
      one to end beyond it, or the last. */
  ghost predicate Holds(cs: seq<Child>, start: nat, off: nat, i: nat) {
    && i < |cs|
    && start + SumBytes(cs[..i]) <= off
    && (off < start + SumBytes(cs[..i]) + cs[i].nbytes || i == |cs| - 1)
  }

  lemma SumBytesSnoc(cs: seq<Child>, i: nat)
    requires i < |cs|
    ensures SumBytes(cs[..i + 1]) == SumBytes(cs[..i]) + cs[i].nbytes
  {
    assert cs[..i + 1] == cs[..i] + [cs[i]];
    SumsConcat(cs[..i], [cs[i]]);
    assert SumBytes([cs[i]]) == cs[i].nbytes;
  }

  /** The search within one node. */
  method FindEntry(cs: seq<Child>, start: nat, off: nat) returns (idx: nat, acc: nat)
    requires cs != [] && start <= off
    ensures Holds(cs, start, off, idx) && acc == start + SumBytes(cs[..idx])
  {
    idx := |cs| - 1;
    acc := start;
    var i := 0;
    while i < |cs|
      invariant i <= |cs| && idx == |cs| - 1 && acc <= off
      invariant acc == start + SumBytes(cs[..if i < |cs| then i else |cs| - 1])
    {
      SumBytesSnoc(cs, i);
      if off < acc + cs[i].nbytes {
        idx := i;
        break;
      }
      if i + 1 < |cs| {
        acc := acc + cs[i].nbytes;
      }
      i := i + 1;
    }
  }

  /** The position at the entry of its level that holds byte `off`, with that entry's start. */
  ghost predicate AtOffset(p: Path, off: nat, start: nat) {
    && p.InRange() && start == SumBytes(p.Before()) <= off
    && (off < start + p.Entry().nbytes || |p.From()| == 1)
  }

  lemma AtOffsetTop(pl: Place, p: Path, off: nat)
    requires p.Top? && ValidPath(pl, pl.top, p) && Holds(p.frame.node.children, 0, off, p.frame.idx)
    ensures AtOffset(p, off, SumBytes(p.frame.node.children[..p.frame.idx]))
  {
    assert p.Before() == p.frame.node.children[..p.frame.idx];
    assert p.From() == p.frame.node.children[p.frame.idx..];
  }

  lemma {:induction false} FlattenSum(level: nat, es: seq<Child>)
    requires AllWellFormed(level + 1, es)
    ensures SumBytes(Flatten(es)) == SumBytes(es)
  {
    if es != [] {
      FlattenSum(level, es[1..]);
      assert WellFormed(level + 1, es[0]);
      SumsConcat(Kids(es[0]), Flatten(es[1..]));
    }
  }

  /** Finding the offset in the node of the entry that holds it refines the position. */
  lemma AtOffsetUnder(pl: Place, level: nat, q: Path, off: nat, start: nat, p: Path)
    requires ValidPath(pl, level + 1, q) && AtOffset(q, off, start)
    requires p.Under? && p.up == q && ValidPath(pl, level, p)
    requires Holds(p.frame.node.children, start, off, p.frame.idx)
    ensures AtOffset(p, off, start + SumBytes(p.frame.node.children[..p.frame.idx]))
  {
    var cs, i := p.frame.node.children, p.frame.idx;
    FromWellFormed(pl, level + 1, q);
    FlattenSum(level, q.Before());
    SumsConcat(Flatten(q.Before()), cs[..i]);
    assert WellFormed(level + 1, q.frame.node.children[q.frame.idx]);
    if off >= start + SumBytes(cs[..i]) + cs[i].nbytes {
      SumBytesSnoc(cs, i);
      assert cs[..i + 1] == cs;
      assert |q.From()| == 1;
      assert q.From()[1..] == [];
    }
  }

  /** Which leaf a byte offset falls on, as a position at level 0, and how many bytes come before that
      leaf. An offset at or past the end of the text falls on its last leaf; only a tree without leaves
      has no answer. */
  method AtByte(st: MemStorage, root: Hash, off: nat, ghost pl: Place) returns (r: Option<(Path, nat)>)
    requires st.Sound() && root in st.Stored() && root == NodeHash(pl.root) && AllWellFormed(pl.top, pl.root.children)
    ensures r.None? <==> pl.root.children == []
    ensures r.Some? ==> ValidPath(pl, 0, r.value.0) && AtOffset(r.value.0, off, r.value.1)
  {
    var node := st.NodeAt(root);
    if node.children == [] {
      return None;
    }
    var idx, start := FindEntry(node.children, 0, off);
    var path := Top(Frame(node, idx));
    AtOffsetTop(pl, path, off);
    ghost var level := pl.top;
    while !path.frame.node.children[path.frame.idx].isLeaf
      invariant ValidPath(pl, level, path) && AtOffset(path, off, start)
      decreases level
    {
      path, start := DescendTo(st, path, off, start, pl, level);
      level := level - 1;
    }
    assert WellFormed(level, path.frame.node.children[path.frame.idx]);
    EntryTotals(level, path.frame.node.children[path.frame.idx]);
    return Some((path, start));
  }

  /** One step of the descent. */
  method DescendTo(st: MemStorage, q: Path, off: nat, start: nat, ghost pl: Place, ghost level: nat)
      returns (p: Path, acc: nat)
    requires st.Sound() && NodeHash(pl.root) in st.Stored()
    requires ValidPath(pl, level, q) && AtOffset(q, off, start) && !q.Entry().isLeaf
    ensures level > 0 && ValidPath(pl, level - 1, p) && AtOffset(p, off, acc)
  {
    PathStored(st.Stored(), pl, level, q);
    assert WellFormed(level, q.frame.node.children[q.frame.idx]);
    EntryTotals(level, q.Entry());
    var node := st.NodeAt(q.Entry().hash);
    var idx;
    idx, acc := FindEntry(node.children, start, off);
    p := Under(q, Frame(node, idx));
    AtOffsetUnder(pl, level - 1, q, off, start, p);
  }
}
