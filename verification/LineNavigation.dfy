/** Finding lines in a stored tree by its counts. */
module LineNavigation {
  import opened Text
  import opened Nodes
  import opened Storage
  import opened Chunker
  import opened Navigation
  import opened Lines

  /** Between the text already passed and the text behind lies the text of the entries still to look
      at; the line sought starts after `remaining` more newlines, and unless nothing is behind it
      starts among them. */
  ghost predicate Seeking(t: Bytes, line: nat, pre: Bytes, mid: Bytes, post: Bytes, remaining: nat) {
    && t == pre + mid + post
    && 0 < remaining && CountNewlines(pre) + remaining == line
    && (post == [] || remaining <= CountNewlines(mid))
  }

  lemma Reassociate(pre: Bytes, x: Bytes, rest: Bytes, post: Bytes)
    ensures pre + (x + rest) + post == (pre + x) + rest + post
    ensures pre + (x + rest) + post == pre + x + (rest + post)
  {
  }

  lemma PassEntry(t: Bytes, line: nat, pre: Bytes, x: Bytes, rest: Bytes, post: Bytes, remaining: nat)
    requires Seeking(t, line, pre, x + rest, post, remaining)
    ensures CountNewlines(x) < remaining ==> Seeking(t, line, pre + x, rest, post, remaining - CountNewlines(x))
    ensures remaining <= CountNewlines(x) ==> Seeking(t, line, pre, x, rest + post, remaining)
  {
    CountNewlinesConcat(pre, x);
    CountNewlinesConcat(x, rest);
    Reassociate(pre, x, rest, post);
  }

  lemma NothingLeft(t: Bytes, line: nat, pre: Bytes, post: Bytes, remaining: nat)
    requires Seeking(t, line, pre, [], post, remaining)
    ensures LineStart(t, line) == None
  {
    assert t == pre;
  }

  /** The line starts inside the text of a leaf, just behind its `remaining`-th newline. */
  lemma StartsInside(t: Bytes, line: nat, pre: Bytes, x: Bytes, post: Bytes, remaining: nat, i: nat)
    requires Seeking(t, line, pre, x, post, remaining)
    requires i < |x| && x[i] == NL && CountNewlines(x[..i + 1]) == remaining
    ensures LineStart(t, line) == Some(|pre| + i + 1)
  {
    var off := |pre| + i + 1;
    assert t[..off] == pre + x[..i + 1];
    CountNewlinesConcat(pre, x[..i + 1]);
    assert t[off - 1] == x[i];
    CountNewlinesPrefix(t, off, |t|);
    assert t[..|t|] == t;
    LineStartUnique(t, line, off, LineStart(t, line).value);
  }

  /** Just past the `k`-th newline of a chunk that has that many. */
  method NthNewline(bytes: Bytes, k: nat) returns (i: nat)
    requires 0 < k <= CountNewlines(bytes)
    ensures i < |bytes| && bytes[i] == NL && CountNewlines(bytes[..i + 1]) == k
  {
    var left := k;
    i := 0;
    assert bytes[..|bytes|] == bytes;
    while i < |bytes|
      invariant i <= |bytes| && 0 < left && CountNewlines(bytes[..i]) + left == k
    {
      assert bytes[..i + 1][..i] == bytes[..i];
      if bytes[i] == NL {
        left := left - 1;
        if left == 0 {
          return;
        }
      }
      i := i + 1;
    }
    assert false;
  }

  /** The first byte of a line, found by the newline totals of the entries on the way down. */
  method LocateLine(st: MemStorage, root: Hash, line: nat, ghost top: nat, ghost t: Bytes) returns (r: Option<nat>)
    requires Reads(st, root, top, t)
    ensures r == LineStart(t, line)
  {
    if line == 0 {
      return Some(0);
    }
    var node := st.NodeAt(root);
    assert [] + t + [] == t;
    r := LocateIn(st, node, 0, line, top, t, line, [], []);
  }

  method LocateIn(st: MemStorage, node: Node, start: nat, sought: nat, ghost level: nat, ghost t: Bytes,
      ghost line: nat, ghost pre0: Bytes, ghost post: Bytes) returns (r: Option<nat>)
    requires st.Sound() && NodeHash(node) in st.Stored() && AllWellFormed(level, node.children)
    requires Seeking(t, line, pre0, ChildrenText(node.children), post, sought) && start == |pre0|
    ensures r == LineStart(t, line)
    decreases level
  {
    var boff: nat, remaining: nat := start, sought;
    ghost var pre, rest := pre0, node.children;
    var i := 0;
    while i < |node.children|
      invariant i <= |node.children| && rest == node.children[i..]
      invariant Seeking(t, line, pre, ChildrenText(rest), post, remaining) && boff == |pre|
    {
      var c := node.children[i];
      assert WellFormed(level, node.children[i]);
      EntryTotals(level, c);
      PassEntry(t, line, pre, TextOf(c.hash), ChildrenText(rest[1..]), post, remaining);
      if c.nlines >= remaining {
        if c.isLeaf {
          var bytes := st.ChunkAt(c.hash);
          var j := NthNewline(bytes, remaining);
          StartsInside(t, line, pre, bytes, ChildrenText(rest[1..]) + post, remaining, j);
          return Some(boff + j + 1);
        }
        var child := st.NodeAt(c.hash);
        r := LocateIn(st, child, boff, remaining, level - 1, t, line, pre, ChildrenText(rest[1..]) + post);
        return;
      }
      remaining := remaining - c.nlines;
      boff := boff + c.nbytes;
      pre, rest := pre + TextOf(c.hash), rest[1..];
      i := i + 1;
    }
    NothingLeft(t, line, pre, post, remaining);
    return None;
  }

  // ----- from bytes to lines -----

  ghost predicate Passing(t: Bytes, off: nat, pre: Bytes, mid: Bytes, post: Bytes) {
    && t == pre + mid + post && |pre| <= off
    && (post == [] || off <= |pre| + |mid|)
  }

  lemma PassBytes(t: Bytes, off: nat, pre: Bytes, x: Bytes, rest: Bytes, post: Bytes)
    requires Passing(t, off, pre, x + rest, post)
    ensures |pre + x| <= off ==> Passing(t, off, pre + x, rest, post)
    ensures off <= |pre + x| ==> Passing(t, off, pre, x, rest + post)
  {
    Reassociate(pre, x, rest, post);
  }

  lemma LineInside(t: Bytes, off: nat, pre: Bytes, x: Bytes, post: Bytes)
    requires Passing(t, off, pre, x, post) && off <= |pre| + |x|
    ensures LineOf(t, off) == CountNewlines(pre) + CountNewlines(x[..off - |pre|])
  {
    assert t[..off] == pre + x[..off - |pre|];
    CountNewlinesConcat(pre, x[..off - |pre|]);
  }

  /** The line of byte `off`; an offset at or past the end is on the last line. */
  method LineOfByte(st: MemStorage, root: Hash, off: nat, ghost top: nat, ghost t: Bytes) returns (line: nat)
    requires Reads(st, root, top, t)
    ensures line == LineOf(t, Min(off, |t|))
  {
    var node := st.NodeAt(root);
    assert [] + t + [] == t;
    line := LineIn(st, node, off, 0, 0, top, t, [], []);
  }

  method LineIn(st: MemStorage, node: Node, off: nat, start: nat, passed: nat, ghost level: nat, ghost t: Bytes,
      ghost pre0: Bytes, ghost post: Bytes) returns (line: nat)
    requires st.Sound() && NodeHash(node) in st.Stored() && AllWellFormed(level, node.children)
    requires Passing(t, off, pre0, ChildrenText(node.children), post)
    requires start == |pre0| && passed == CountNewlines(pre0)
    ensures line == LineOf(t, Min(off, |t|))
    decreases level
  {
    var boff: nat, lines: nat := start, passed;
    ghost var pre, rest := pre0, node.children;
    var last := |node.children| - 1;
    var i := 0;
    while i < |node.children|
      invariant i <= |node.children| && rest == node.children[i..]
      invariant Passing(t, off, pre, ChildrenText(rest), post) && boff == |pre| && lines == CountNewlines(pre)
    {
      var c := node.children[i];
      assert WellFormed(level, node.children[i]);
      EntryTotals(level, c);
      ghost var x, behind := TextOf(c.hash), ChildrenText(rest[1..]);
      PassBytes(t, off, pre, x, behind, post);
      var end := boff + c.nbytes;
      if off < end || (i == last && off == end) {
        if c.isLeaf {
          var bytes := st.ChunkAt(c.hash);
          LineInside(t, off, pre, bytes, behind + post);
          return lines + CountNewlines(bytes[..off - boff]);
        }
        var child := st.NodeAt(c.hash);
        line := LineIn(st, child, off, boff, lines, level - 1, t, pre, behind + post);
        return;
      }
      CountNewlinesConcat(pre, x);
      boff := end;
      lines := lines + c.nlines;
      pre, rest := pre + x, rest[1..];
      i := i + 1;
    }
    PastAll(t, off, pre, post);
    return lines;
  }

  lemma PastAll(t: Bytes, off: nat, pre: Bytes, post: Bytes)
    requires Passing(t, off, pre, [], post)
    ensures CountNewlines(pre) == LineOf(t, Min(off, |t|))
  {
    assert t[..|pre|] == pre;
  }

  // ----- lines as ranges -----

  lemma {:induction false} NoneCounted(l: Bytes)
    requires NL !in l
    ensures CountNewlines(l) == 0
    decreases |l|
  {
    if l != [] {
      NoneCounted(l[..|l| - 1]);
    }
  }

  lemma OneCounted(l: Bytes)
    requires Terminated(l)
    ensures CountNewlines(l) == 1
  {
    NoneCounted(l[..|l| - 1]);
  }

  /** How many newlines lines hold: one each, but for a last line without one. */
  function Complete(ls: seq<Bytes>): nat {
    if ls == [] then 0 else if Terminated(ls[|ls| - 1]) then |ls| else |ls| - 1
  }

  lemma {:induction false} LinesCounted(ls: seq<Bytes>)
    requires AreLines(ls)
    ensures CountNewlines(Concat(ls)) == Complete(ls)
    decreases |ls|
  {
    if ls != [] {
      var front, l := ls[..|ls| - 1], ls[|ls| - 1];
      assert ls == front + [l];
      ConcatAppend(front, [l]);
      ConcatOne(l);
      LinesCounted(front);
      CountNewlinesConcat(Concat(front), l);
      if Terminated(l) {
        OneCounted(l);
      } else {
        NoneCounted(l);
      }
    }
  }

  lemma {:induction false} EndsInNewline(ls: seq<Bytes>)
    requires ls != [] && AreLines(ls) && Terminated(ls[|ls| - 1])
    ensures Concat(ls) != [] && Concat(ls)[|Concat(ls)| - 1] == NL
  {
    var front, l := ls[..|ls| - 1], ls[|ls| - 1];
    assert ls == front + [l];
    ConcatAppend(front, [l]);
    ConcatOne(l);
  }

  /** The n-th line starts where the first n lines of the split text end. */
  lemma {:induction false} LineStartsAtLine(t: Bytes, n: nat)
    ensures n <= Complete(SplitLines(t)) ==> LineStart(t, n) == Some(|Concat(SplitLines(t)[..n])|)
    ensures n > Complete(SplitLines(t)) ==> LineStart(t, n) == None
  {
    hide SplitLines, Concat, AreLines, Complete, LineStart, CountNewlines;
    var ls := SplitLines(t);
    SplitJoins(t);
    LinesCounted(ls);
    if n <= Complete(ls) {
      FrontLines(ls, n);
      assert t[..|Concat(ls[..n])|] == Concat(ls[..n]);
      LineStartUnique(t, n, |Concat(ls[..n])|, LineStart(t, n).value);
    }
  }

  lemma {:induction false} FrontLines(ls: seq<Bytes>, n: nat)
    requires AreLines(ls) && n <= Complete(ls)
    ensures n <= |ls| && Concat(ls[..n]) <= Concat(ls) && CountNewlines(Concat(ls[..n])) == n
    ensures Concat(ls[..n]) != [] ==> Concat(ls[..n])[|Concat(ls[..n])| - 1] == NL
  {
    hide Concat, CountNewlines;
    var front, back := ls[..n], ls[n..];
    assert ls == front + back;
    ConcatAppend(front, back);
    LinesCounted(front);
    if n > 0 {
      EndsInNewline(front);
    } else {
      NoLineNoText(front);
    }
  }

  lemma NoLineNoText(ls: seq<Bytes>)
    requires ls == []
    ensures Concat(ls) == []
  {
  }

  /** The line found at the start of line `n` is `n` itself; and the line a byte is on starts no
      later than the byte, with no newline between. */
  lemma LocatingUndone(t: Bytes, off: nat)
    requires off <= |t|
    ensures forall n: nat | LineStart(t, n).Some? :: LineOf(t, LineStart(t, n).value) == n
    ensures var s := LineStart(t, LineOf(t, off)); s.Some? && s.value <= off && NL !in t[s.value..off]
  {
    assert t[..|t|] == t;
    CountNewlinesPrefix(t, off, |t|);
    var i := LineStart(t, LineOf(t, off)).value;
    if off < i {
      LineStartBelow(t, off, i);
    }
    CountNewlinesPrefix(t, i, off);
    NoneCountedOnly(t[i..off]);
  }

  lemma {:induction false} NoneCountedOnly(l: Bytes)
    requires CountNewlines(l) == 0
    ensures NL !in l
    decreases |l|
  {
    if l != [] {
      NoneCountedOnly(l[..|l| - 1]);
      assert l == l[..|l| - 1] + [l[|l| - 1]];
    }
  }

  /** Where line `n` starts, or the end of the text when there is no such line. */
  function LineEdge(t: Bytes, n: nat): nat {
    var s := LineStart(t, n);
    if s.Some? then s.value else |t|
  }

  lemma EdgeIs(t: Bytes, n: nat)
    ensures LineEdge(t, n) == |Concat(SplitLines(t)[..Min(n, |SplitLines(t)|)])|
    ensures LineStart(t, n).None? ==> n >= |SplitLines(t)|
  {
    var ls := SplitLines(t);
    LineStartsAtLine(t, n);
    hide LineStart, SplitLines, Concat, Terminated;
    if n > Complete(ls) {
      SplitJoins(t);
      assert ls[..|ls|] == ls;
    }
  }

  lemma RangeOfLines(t: Bytes, from: nat, end: nat)
    requires from < end
    ensures LineEdge(t, from) <= LineEdge(t, end) <= |t|
    ensures LineStart(t, from).None? ==> from >= |SplitLines(t)|
    ensures var ls := SplitLines(t);
      t[LineEdge(t, from)..LineEdge(t, end)] == Concat(ls[Min(from, |ls|)..Min(end, |ls|)])
  {
    hide LineEdge, LineStart, SplitLines, Concat;
    var ls := SplitLines(t);
    SplitJoins(t);
    EdgeIs(t, from);
    EdgeIs(t, end);
    ConcatThree(ls, Min(from, |ls|), Min(end, |ls|));
  }

  /** Some lines of a document, both bounds included, cut short where the document ends. */
  method LinesBetween(st: MemStorage, root: Hash, from: nat, last: nat, ghost top: nat, ghost t: Bytes)
      returns (out: Bytes)
    requires Reads(st, root, top, t)
    ensures last < from ==> out == []
    ensures from <= last ==>
      var ls := SplitLines(t); out == Concat(ls[Min(from, |ls|)..Min(last + 1, |ls|)])
  {
    hide Reads, SplitLines, Concat, LineStart;
    if last < from {
      return [];
    }
    RangeOfLines(t, from, last + 1);
    var total, _ := Totals(st, root, top, t);
    var start := LocateLine(st, root, from, top, t);
    if start.None? {
      return [];
    }
    var end := LocateLine(st, root, last + 1, top, t);
    var stop := if end.Some? then end.value else total;
    out := MaterializeRange(st, root, start.value, stop, top, t);
  }
}
