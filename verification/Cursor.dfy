/** Where one stands among all the entries of a level: the node and index at every level above it. */
module Cursors {
  import opened Text
  import opened Nodes
  import opened Storage
  import opened Grouping
  import opened Tree

  datatype Frame = Frame(node: Node, idx: nat)

  /** The frame stack, top of stack last: pushing is `Under(path, frame)`, popping is `up`. */
  datatype Path = Top(frame: Frame) | Under(up: Path, frame: Frame)
  {
    predicate InRange() {
      frame.idx < |frame.node.children| && (Under? ==> up.InRange())
    }

    function Entry(): Child
      requires InRange()
    {
      frame.node.children[frame.idx]
    }

    /** The entries of this level that precede the position. */
    ghost function Before(): seq<Child>
      requires InRange()
    {
      (if Top? then [] else Flatten(up.Before())) + frame.node.children[..frame.idx]
    }

    /** The entries of this level from the position on. */
    ghost function From(): (es: seq<Child>)
      requires InRange()
      ensures es != [] && es[0] == Entry()
    {
      frame.node.children[frame.idx..] + if Top? then [] else Flatten(up.From()[1..])
    }
  }

  /** The tree a path lies in: its root node, whose entries are `top` levels above the leaves. */
  datatype Place = Place(root: Node, top: nat)

  /** Frames in range in a well-formed tree, each node the one the frame above points at, the first
      the root; the entries of the last frame are `level` levels above the leaves. */
  ghost predicate ValidPath(pl: Place, level: nat, p: Path) {
    p.InRange() && Linked(pl, level, p)
  }

  ghost predicate Linked(pl: Place, level: nat, p: Path)
    decreases p
  {
    && p.InRange()
    && AllWellFormed(level, p.frame.node.children)
    && match p
       case Top(f) => level == pl.top && f.node == pl.root
       case Under(up, f) => Linked(pl, level + 1, up) && up.Entry().hash == NodeHash(f.node)
  }

  /** What is left of a level from a position on; nothing without one. */
  ghost function FromOpt(k: Option<Path>): seq<Child>
    requires k.Some? ==> k.value.InRange()
  {
    match k
    case None => []
    case Some(p) => p.From()
  }

  lemma FlattenAround(es: seq<Child>, fs: seq<Child>)
    requires fs != []
    ensures Flatten(es + fs) == Flatten(es) + Kids(fs[0]) + Flatten(fs[1..])
  {
    FlattenConcat(es, fs);
  }

  lemma Rejoin(xs: seq<Child>, cs: seq<Child>, i: nat, ys: seq<Child>)
    requires i <= |cs|
    ensures (xs + cs[..i]) + (cs[i..] + ys) == xs + cs + ys
  {
    assert cs[..i] + cs[i..] == cs;
  }

  /** A position splits its level in two: at the root the root's own entries, below it the entries
      of the level above, flattened. */
  lemma WholeLevel(p: Path)
    requires p.InRange() && (p.Under? ==> p.up.Entry().hash == NodeHash(p.frame.node))
    ensures p.Top? ==> p.Before() + p.From() == p.frame.node.children
    ensures p.Under? ==> p.Before() + p.From() == Flatten(p.up.Before() + p.up.From())
  {
    var cs, i := p.frame.node.children, p.frame.idx;
    if p.Top? {
      Rejoin([], cs, i, []);
    } else {
      FlattenAround(p.up.Before(), p.up.From());
      Rejoin(Flatten(p.up.Before()), cs, i, Flatten(p.up.From()[1..]));
    }
  }

  /** A path to a level of its tree splits exactly that level. */
  lemma {:induction false} WholeLevelDown(pl: Place, level: nat, p: Path)
    requires ValidPath(pl, level, p)
    ensures level <= pl.top
    ensures p.Before() + p.From() == Down(pl.root.children, pl.top - level)
    decreases p
  {
    WholeLevel(p);
    match p
    case Top(_) =>
      assert pl.top - level == 0;
    case Under(up, _) =>
      WholeLevelDown(pl, level + 1, up);
      assert Down(pl.root.children, pl.top - level) == Flatten(Down(pl.root.children, pl.top - level - 1));
  }

  /** Pushing the first entry of the current entry's node descends without moving. */
  lemma PushFirst(pl: Place, level: nat, q: Path)
    requires ValidPath(pl, level + 1, q)
    ensures q.Entry().hash.NodeHash?
    ensures var p := Under(q, Frame(q.Entry().hash.node, 0));
      ValidPath(pl, level, p) && p.From() == Flatten(q.From()) && p.Before() == Flatten(q.Before())
  {
    assert WellFormed(level + 1, q.frame.node.children[q.frame.idx]);
    var cs := q.Entry().hash.node.children;
    assert cs[0..] == cs && cs[..0] == [];
  }

  /** Moving to the next entry of the same node. */
  lemma StepInNode(pl: Place, level: nat, p: Path)
    requires ValidPath(pl, level, p) && p.frame.idx + 1 < |p.frame.node.children|
    ensures var q := p.(frame := p.frame.(idx := p.frame.idx + 1));
      ValidPath(pl, level, q) && q.From() == p.From()[1..] && q.Before() == p.Before() + [p.Entry()]
  {
    var cs, i := p.frame.node.children, p.frame.idx;
    assert cs[i..][1..] == cs[i + 1..];
    assert cs[..i + 1] == cs[..i] + [cs[i]];
  }

  /** Popping a frame that stands on the last entry of its node. */
  lemma PopLast(pl: Place, level: nat, p: Path)
    requires ValidPath(pl, level, p) && p.frame.idx + 1 == |p.frame.node.children|
    ensures p.Top? ==> p.From()[1..] == []
    ensures p.Under? ==> p.From()[1..] == Flatten(p.up.From()[1..])
    ensures p.Under? ==> p.Before() + [p.Entry()] == Flatten(p.up.Before() + [p.up.Entry()])
  {
    var cs, i := p.frame.node.children, p.frame.idx;
    assert cs[i..] == [cs[i]];
    if p.Under? {
      FlattenAround(p.up.Before(), [p.up.Entry()]);
      assert cs[..i] + [cs[i]] == cs;
    }
  }

  /** All entries around a position are well-formed. */
  lemma FromWellFormed(pl: Place, level: nat, p: Path)
    requires ValidPath(pl, level, p)
    ensures AllWellFormed(level, p.Before()) && AllWellFormed(level, p.From())
    decreases p
  {
    if p.Under? {
      FromWellFormed(pl, level + 1, p.up);
      FlattenWellFormed(level, p.up.Before());
      FlattenWellFormed(level, p.up.From()[1..]);
    }
  }

  lemma {:induction false} FlattenWellFormed(level: nat, es: seq<Child>)
    requires AllWellFormed(level + 1, es)
    ensures AllWellFormed(level, Flatten(es))
  {
    if es != [] {
      FlattenWellFormed(level, es[1..]);
      assert WellFormed(level + 1, es[0]);
      WellFormedConcat(level, Kids(es[0]), Flatten(es[1..]));
    }
  }

  /** In a sound store that holds the root, every node along a path is stored, and so is its entry. */
  lemma {:induction false} PathStored(stored: set<Hash>, pl: Place, level: nat, p: Path)
    requires Closed(stored) && NodeHash(pl.root) in stored && ValidPath(pl, level, p)
    ensures NodeHash(p.frame.node) in stored && p.Entry().hash in stored
    ensures p.Entry().hash.NodeHash? <==> level > 0
    decreases p
  {
    if p.Under? {
      PathStored(stored, pl, level + 1, p.up);
    }
    assert WellFormed(level, p.frame.node.children[p.frame.idx]);
  }

  // ----- the next position -----

  /** The first entry of the node the current entry names. */
  function Push(p: Path): Path {
    Under(p, Frame(
      if p.frame.idx < |p.frame.node.children| && p.frame.node.children[p.frame.idx].hash.NodeHash?
      then p.frame.node.children[p.frame.idx].hash.node else Node([]), 0))
  }

  function PushTimes(p: Path, n: nat): Path {
    if n == 0 then p else PushSome(p, n)
  }

  function PushSome(p: Path, n: nat): Path
    decreases n
  {
    if n == 0 then p else PushSome(Push(p), n - 1)
  }

  function Step(p: Path): Path {
    p.(frame := p.frame.(idx := p.frame.idx + 1))
  }

  function AtNodeEnd(p: Path): bool {
    p.frame.idx + 1 >= |p.frame.node.children|
  }

  /** The next position of the same level. */
  function Next(p: Path): Option<Path> {
    if !AtNodeEnd(p) then Some(Step(p))
    else
      match p
      case Top(_) => None
      case Under(up, _) => var n := Next(up); if n.None? then None else Some(Push(n.value))
  }

  /** The next position is valid, and splits its level one entry further on. */
  lemma {:induction false} NextMoves(pl: Place, level: nat, p: Path)
    requires ValidPath(pl, level, p)
    ensures Next(p).None? ==> p.From()[1..] == []
    ensures Next(p).Some? ==>
      && ValidPath(pl, level, Next(p).value)
      && Next(p).value.From() == p.From()[1..]
      && Next(p).value.Before() == p.Before() + [p.Entry()]
    decreases p
  {
    if !AtNodeEnd(p) {
      StepInNode(pl, level, p);
    } else {
      PopLast(pl, level, p);
      if p.Under? {
        NextMoves(pl, level + 1, p.up);
        if Next(p.up).Some? {
          PushFirst(pl, level, Next(p.up).value);
        } else {
          assert Flatten([]) == [];
        }
      }
    }
  }

  /** Pushing `n` times after the next position above is the next position below. */
  lemma ClimbOnce(p: Path, n: nat)
    requires AtNodeEnd(p)
    ensures p.Top? ==> Next(p).None?
    ensures p.Under? ==> (Next(p).None? <==> Next(p.up).None?)
    ensures p.Under? && Next(p).Some? ==> PushTimes(Next(p).value, n) == PushTimes(Next(p.up).value, n + 1)
  {
  }

  /** Pop the frames that stand on the last entry of their node. */
  method Climb(p: Path, ghost pl: Place, ghost level: nat) returns (q: Path, popped: nat)
    requires ValidPath(pl, level, p)
    ensures ValidPath(pl, level + popped, q)
    ensures AtNodeEnd(q) ==> Next(p).None?
    ensures !AtNodeEnd(q) ==> Next(p) == Some(PushTimes(Step(q), popped))
  {
    q, popped := p, 0;
    while AtNodeEnd(q) && q.Under?
      invariant ValidPath(pl, level + popped, q)
      invariant Next(q).None? <==> Next(p).None?
      invariant Next(q).Some? ==> PushTimes(Next(q).value, popped) == Next(p).value
      decreases q
    {
      ClimbOnce(q, popped);
      q := q.up;
      popped := popped + 1;
    }
  }

  method PushNode(st: MemStorage, q: Path, ghost pl: Place, ghost level: nat) returns (p: Path)
    requires st.Sound() && NodeHash(pl.root) in st.Stored() && ValidPath(pl, level + 1, q)
    ensures p == Push(q) && ValidPath(pl, level, p)
  {
    PathStored(st.Stored(), pl, level + 1, q);
    PushFirst(pl, level, q);
    var n := st.NodeAt(q.Entry().hash);
    p := Under(q, Frame(n, 0));
  }

  /** Push first entries, `times` of them. */
  method Descend(st: MemStorage, q: Path, times: nat, ghost pl: Place, ghost level: nat) returns (p: Path)
    requires st.Sound() && NodeHash(pl.root) in st.Stored() && ValidPath(pl, level + times, q)
    ensures p == PushTimes(q, times)
  {
    p := q;
    var left: nat := times;
    while left > 0
      invariant ValidPath(pl, level + left, p) && PushTimes(p, left) == PushTimes(q, times)
    {
      p := PushNode(st, p, pl, level + left - 1);
      left := left - 1;
    }
  }

  class Cursor {
    var path: Path

    constructor (p: Path)
      ensures path == p
    {
      path := p;
    }

    /** Step to the entry behind this one, across node ends; the answer is whether there was one. */
    method Advance(st: MemStorage, ghost pl: Place, ghost level: nat) returns (more: bool)
      requires st.Sound() && NodeHash(pl.root) in st.Stored() && ValidPath(pl, level, path)
      modifies this
      ensures more <==> Next(old(path)).Some?
      ensures more ==> path == Next(old(path)).value
    {
      var p, popped := Climb(path, pl, level);
      if AtNodeEnd(p) {
        return false;
      }
      StepInNode(pl, level + popped, p);
      path := Descend(st, Step(p), popped, pl, level);
      return true;
    }
  }
}
