/** Tree nodes, and hashes as the collision-free names of what they hash. */
module Nodes {
  import opened Text

  /** A content hash is modelled by the content it names: the constructors are the two hash
      domains, and their injectivity is the assumption that hashes do not collide. */
  datatype Hash = ChunkHash(chunk: Bytes) | NodeHash(node: Node)

  /** One entry of a node: a chunk or a subtree, with its totals. */
  datatype Child = Child(hash: Hash, nbytes: nat, nlines: nat, isLeaf: bool)

  datatype Node = Node(children: seq<Child>)
  {
    function NBytes(): nat { SumBytes(children) }

    function NLines(): nat { SumLines(children) }

    /** The node as an entry of the level above, its totals summed. */
    function AsChild(): Child {
      Child(NodeHash(this), NBytes(), NLines(), false)
    }
  }

  function LeafOf(chunk: Bytes): Child {
    Child(ChunkHash(chunk), |chunk|, CountNewlines(chunk), true)
  }

  function SumBytes(cs: seq<Child>): nat {
    if cs == [] then 0 else cs[0].nbytes + SumBytes(cs[1..])
  }

  function SumLines(cs: seq<Child>): nat {
    if cs == [] then 0 else cs[0].nlines + SumLines(cs[1..])
  }

  /** What a hash stands for: its chunk, or the texts of its entries from left to right. */
  function TextOf(h: Hash): Bytes
    decreases h, 0
  {
    match h
    case ChunkHash(chunk) => chunk
    case NodeHash(node) => ChildrenText(node.children)
  }

  function ChildrenText(cs: seq<Child>): Bytes
    decreases cs, 0
  {
    if cs == [] then []
    else
      var c := cs[0];
      assert c.hash < c;
      TextOf(c.hash) + ChildrenText(cs[1..])
  }

  /** An entry at `level` levels above the chunks: every leaf at the same depth, no empty node, no
      empty chunk, and all totals those of the content. */
  ghost predicate WellFormed(level: nat, c: Child)
    decreases level, 0
  {
    if level == 0 then
      c.hash.ChunkHash? && c.hash.chunk != [] && c == LeafOf(c.hash.chunk)
    else
      && c.hash.NodeHash? && c == c.hash.node.AsChild()
      && c.hash.node.children != []
      && AllWellFormed(level - 1, c.hash.node.children)
  }

  ghost predicate AllWellFormed(level: nat, cs: seq<Child>)
    decreases level, 1
  {
    forall i {:trigger WellFormed(level, cs[i])} | 0 <= i < |cs| :: WellFormed(level, cs[i])
  }

  // ----- concatenation laws -----

  lemma WellFormedConcat(level: nat, cs: seq<Child>, ds: seq<Child>)
    ensures AllWellFormed(level, cs + ds) <==> AllWellFormed(level, cs) && AllWellFormed(level, ds)
  {
    if AllWellFormed(level, cs + ds) {
      assert forall i | 0 <= i < |cs| :: cs[i] == (cs + ds)[i];
      assert forall i | 0 <= i < |ds| :: ds[i] == (cs + ds)[|cs| + i];
    }
  }

  /** Reading one more entry, in the shape a loop over the entries needs. */
  lemma ChildrenTextStep(done: Bytes, cs: seq<Child>, i: nat)
    requires i < |cs|
    ensures done + ChildrenText(cs[i..]) == (done + TextOf(cs[i].hash)) + ChildrenText(cs[i + 1..])
  {
    assert cs[i..][1..] == cs[i + 1..];
    var rest := ChildrenText(cs[i + 1..]);
    assert ChildrenText(cs[i..]) == TextOf(cs[i].hash) + rest;
    assert done + (TextOf(cs[i].hash) + rest) == (done + TextOf(cs[i].hash)) + rest;
  }

  lemma {:induction false} ChildrenTextConcat(cs: seq<Child>, ds: seq<Child>)
    ensures ChildrenText(cs + ds) == ChildrenText(cs) + ChildrenText(ds)
  {
    if cs == [] {
      assert cs + ds == ds;
    } else {
      assert (cs + ds)[1..] == cs[1..] + ds;
      ChildrenTextConcat(cs[1..], ds);
    }
  }

  lemma {:induction false} SumsConcat(cs: seq<Child>, ds: seq<Child>)
    ensures SumBytes(cs + ds) == SumBytes(cs) + SumBytes(ds)
    ensures SumLines(cs + ds) == SumLines(cs) + SumLines(ds)
  {
    if cs == [] {
      assert cs + ds == ds;
    } else {
      assert (cs + ds)[1..] == cs[1..] + ds;
      SumsConcat(cs[1..], ds);
    }
  }

  /** The totals kept in a well-formed entry are the length and the line count of its text. */
  lemma {:induction false} EntryTotals(level: nat, c: Child)
    requires WellFormed(level, c)
    ensures c.nbytes == |TextOf(c.hash)| > 0
    ensures c.nlines == CountNewlines(TextOf(c.hash))
    ensures c.isLeaf <==> level == 0
    decreases level, 1
  {
    if level > 0 {
      SumsAreTotals(level - 1, c.hash.node.children);
      EntryTotals(level - 1, c.hash.node.children[0]);
    }
  }

  lemma {:induction false} SumsAreTotals(level: nat, cs: seq<Child>)
    requires AllWellFormed(level, cs)
    ensures SumBytes(cs) == |ChildrenText(cs)|
    ensures SumLines(cs) == CountNewlines(ChildrenText(cs))
    decreases level, 2, |cs|
  {
    if cs != [] {
      EntryTotals(level, cs[0]);
      SumsAreTotals(level, cs[1..]);
      CountNewlinesConcat(TextOf(cs[0].hash), ChildrenText(cs[1..]));
    }
  }

  // ----- what a store must hold for its trees to be readable -----

  ghost predicate AllIn(stored: set<Hash>, cs: seq<Child>) {
    forall i | 0 <= i < |cs| :: cs[i].hash in stored
  }

  /** Whatever a stored node points at is stored too. */
  ghost predicate Closed(stored: set<Hash>) {
    forall h | h in stored && h.NodeHash? :: AllIn(stored, h.node.children)
  }

  /** A hash and everything it leads to. */
  ghost function Below(h: Hash): set<Hash>
    decreases h, 0
  {
    {h} + if h.NodeHash? then BelowAll(h.node.children) else {}
  }

  ghost function BelowAll(cs: seq<Child>): set<Hash>
    decreases cs, 0
  {
    if cs == [] then {}
    else
      assert cs[0].hash < cs[0];
      Below(cs[0].hash) + BelowAll(cs[1..])
  }

  lemma ClosedUnion(a: set<Hash>, b: set<Hash>)
    requires Closed(a) && Closed(b)
    ensures Closed(a + b)
  {
    forall h | h in a + b && h.NodeHash? ensures AllIn(a + b, h.node.children) {
      assert h in a ==> AllIn(a, h.node.children);
      assert h in b ==> AllIn(b, h.node.children);
    }
  }

  lemma {:induction false} BelowClosed(h: Hash)
    ensures h in Below(h) && Closed(Below(h))
    decreases h, 0
  {
    if h.NodeHash? {
      BelowAllClosed(h.node.children);
      forall g | g in Below(h) && g.NodeHash? ensures AllIn(Below(h), g.node.children) {
        assert g != h ==> AllIn(BelowAll(h.node.children), g.node.children);
      }
    }
  }

  lemma {:induction false} BelowAllClosed(cs: seq<Child>)
    ensures AllIn(BelowAll(cs), cs) && Closed(BelowAll(cs))
    decreases cs, 0
  {
    if cs != [] {
      assert cs[0].hash < cs[0];
      BelowClosed(cs[0].hash);
      BelowAllClosed(cs[1..]);
      ClosedUnion(Below(cs[0].hash), BelowAll(cs[1..]));
    }
  }
}
