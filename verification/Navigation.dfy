/** Reading a stored tree by byte and by line, without materializing it. */
module Navigation {
  import opened Text
  import opened Nodes
  import opened Storage

  /** A stored, well-formed tree over the text `t`. */
  ghost predicate Reads(st: MemStorage, root: Hash, top: nat, t: Bytes)
    reads st
  {
    && st.Sound() && root in st.Stored()
    && root.NodeHash? && AllWellFormed(top, root.node.children) && TextOf(root) == t
  }

  method Totals(st: MemStorage, root: Hash, ghost top: nat, ghost t: Bytes) returns (nbytes: nat, nlines: nat)
    requires Reads(st, root, top, t)
    ensures nbytes == |t| && nlines == CountNewlines(t)
  {
    var n := st.NodeAt(root);
    SumsAreTotals(top, n.children);
    return n.NBytes(), n.NLines();
  }

  // ----- byte ranges -----

  /** `v` kept within [0, len]. */
  function Clamp(v: int, len: nat): nat {
    if v < 0 then 0 else if v > len then len else v
  }

  /** The part of `x`, placed at offset `off`, that lies in [from, end). */
  function Clip(x: Bytes, off: nat, from: nat, end: nat): Bytes
    requires from <= end
  {
    x[Clamp(from - off, |x|)..Clamp(end - off, |x|)]
  }

  lemma SliceConcat(x: Bytes, y: Bytes, lo: nat, hi: nat)
    requires lo <= hi <= |x| + |y|
    ensures (x + y)[lo..hi] == x[Clamp(lo, |x|)..Clamp(hi, |x|)] + y[Clamp(lo - |x|, |y|)..Clamp(hi - |x|, |y|)]
  {
    if hi <= |x| {
      assert (x + y)[lo..hi] == x[lo..hi];
    } else if |x| <= lo {
      assert (x + y)[lo..hi] == y[lo - |x|..hi - |x|];
    } else {
      assert (x + y)[lo..hi] == x[lo..] + y[..hi - |x|];
    }
  }

  lemma ClipConcat(x: Bytes, y: Bytes, off: nat, from: nat, end: nat)
    requires from <= end
    ensures Clip(x + y, off, from, end) == Clip(x, off, from, end) + Clip(y, off + |x|, from, end)
  {
    SliceConcat(x, y, Clamp(from - off, |x| + |y|), Clamp(end - off, |x| + |y|));
  }

  method MaterializeRange(st: MemStorage, root: Hash, from: nat, end: nat, ghost top: nat, ghost t: Bytes)
      returns (out: Bytes)
    requires Reads(st, root, top, t)
    ensures out == if from < Min(end, |t|) then t[from..Min(end, |t|)] else []
  {
    var n := st.NodeAt(root);
    SumsAreTotals(top, n.children);
    var last := Min(end, n.NBytes());
    if from >= last {
      return [];
    }
    out := RangeInto(st, n, 0, from, last, top);
  }

  method RangeInto(st: MemStorage, node: Node, off: nat, from: nat, end: nat, ghost level: nat) returns (out: Bytes)
    requires st.Sound() && NodeHash(node) in st.Stored() && AllWellFormed(level, node.children) && from < end
    ensures out == Clip(ChildrenText(node.children), off, from, end)
    decreases level
  {
    hide Clip, TextOf;
    var cs := node.children;
    out := [];
    var i := 0;
    var at: nat := off;
    ghost var rest := cs;
    ghost var whole := Clip(ChildrenText(cs), off, from, end);
    while i < |cs|
      invariant i <= |cs| && rest == cs[i..]
      invariant whole == out + Clip(ChildrenText(rest), at, from, end)
    {
      ClipFirst(rest, at, from, end, out);
      assert WellFormed(level, cs[i]);
      var part := ChildRange(st, cs[i], at, from, end, level);
      out := out + part;
      at := at + cs[i].nbytes;
      rest := rest[1..];
      i := i + 1;
      if at >= end {
        break;
      }
    }
    ClipPast(ChildrenText(rest), at, from, end);
  }

  /** What one child contributes: nothing when it lies outside the range. */
  method ChildRange(st: MemStorage, c: Child, at: nat, from: nat, end: nat, ghost level: nat) returns (part: Bytes)
    requires st.Sound() && c.hash in st.Stored() && WellFormed(level, c) && from < end
    ensures part == Clip(TextOf(c.hash), at, from, end) && c.nbytes == |TextOf(c.hash)|
    decreases level, 0
  {
    EntryTotals(level, c);
    var stop := at + c.nbytes;
    if stop > from && at < end {
      if c.isLeaf {
        var bytes := st.ChunkAt(c.hash);
        part := bytes[Max(from - at, 0)..Min(end, stop) - at];
      } else {
        var child := st.NodeAt(c.hash);
        part := RangeInto(st, child, at, from, end, level - 1);
      }
    } else {
      part := [];
    }
  }

  lemma ClipPast(x: Bytes, at: nat, from: nat, end: nat)
    requires from <= end && (x == [] || at >= end)
    ensures Clip(x, at, from, end) == []
  {
  }

  lemma ClipFirst(cs: seq<Child>, at: nat, from: nat, end: nat, out: Bytes)
    requires cs != [] && from <= end
    ensures out + Clip(ChildrenText(cs), at, from, end) ==
      (out + Clip(TextOf(cs[0].hash), at, from, end)) + Clip(ChildrenText(cs[1..]), at + |TextOf(cs[0].hash)|, from,
        end)
  {
    ClipConcat(TextOf(cs[0].hash), ChildrenText(cs[1..]), at, from, end);
  }
}
