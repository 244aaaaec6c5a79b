/** The hashes that nodes are written with: where no two contents of two trees collide, the digests of
    their roots name them, down to the encoded bytes. */
module Digests {
  import opened Text
  import opened Nodes
  import opened Tree
  import opened NodeCodec

  /** A digest of chunks and of encoded nodes, told apart by a tag. */
  type Hasher = (bool, Bytes) -> Bytes

  ghost predicate Sized(d: Hasher) {
    forall isNode, bytes :: |d(isNode, bytes)| == HASH_LEN
  }

  function Digest(d: Hasher, h: Hash): Bytes
    decreases h, 1
  {
    match h
    case ChunkHash(chunk) => d(false, chunk)
    case NodeHash(node) => d(true, Written(d, node.children))
  }

  /** The entries of a node one after another, as `EncodeAll` writes them. */
  function Written(d: Hasher, cs: seq<Child>): Bytes
    decreases cs, 0
  {
    if cs == [] then []
    else
      assert cs[0].hash < cs[0];
      Digest(d, cs[0].hash) + LeBytes(cs[0].nbytes, WORD_LEN) + LeBytes(cs[0].nlines, WORD_LEN)
        + [if cs[0].isLeaf then 1 else 0] + Written(d, cs[1..])
  }

  /** What is written of an entry. */
  function AsEntry(d: Hasher, c: Child): Entry {
    Entry(Digest(d, c.hash), c.nbytes, c.nlines, c.isLeaf)
  }

  function AsEntries(d: Hasher, cs: seq<Child>): seq<Entry> {
    if cs == [] then [] else [AsEntry(d, cs[0])] + AsEntries(d, cs[1..])
  }

  /** The totals fit the words they are written in. */
  ghost predicate TotalsFit(cs: seq<Child>) {
    forall c | c in cs :: c.nbytes < WORD && c.nlines < WORD
  }

  ghost predicate FitBelow(stored: set<Hash>) {
    forall h | h in stored && h.NodeHash? :: TotalsFit(h.node.children)
  }

  lemma {:induction false} WrittenIsEncoded(d: Hasher, cs: seq<Child>)
    requires Sized(d) && TotalsFit(cs)
    ensures AllFit(AsEntries(d, cs)) && Written(d, cs) == EncodeAll(AsEntries(d, cs))
    decreases |cs|
  {
    if cs != [] {
      var c, rest := cs[0], cs[1..];
      WrittenIsEncoded(d, rest);
      DigestSized(d, c.hash);
      assert AsEntries(d, cs)[1..] == AsEntries(d, rest);
      assert Written(d, cs) == EncodeEntry(AsEntry(d, c)) + Written(d, rest);
    }
  }

  lemma DigestSized(d: Hasher, h: Hash)
    requires Sized(d)
    ensures |Digest(d, h)| == HASH_LEN
  {
    match h
    case ChunkHash(chunk) =>
      assert |d(false, chunk)| == HASH_LEN;
    case NodeHash(node) =>
      assert |d(true, Written(d, node.children))| == HASH_LEN;
  }

  /** What is hashed for a content. */
  function Hashed(d: Hasher, h: Hash): (bool, Bytes) {
    match h
    case ChunkHash(chunk) => (false, chunk)
    case NodeHash(node) => (true, Written(d, node.children))
  }

  /** No two of the contents have one digest. */
  ghost predicate CollisionFree(d: Hasher, stored: set<Hash>) {
    forall g, h | g in stored && h in stored && Digest(d, g) == Digest(d, h) :: Hashed(d, g) == Hashed(d, h)
  }

  /** Then a digest names its content. */
  lemma {:induction false} DigestNames(d: Hasher, stored: set<Hash>, g: Hash, h: Hash)
    requires Sized(d) && CollisionFree(d, stored) && Closed(stored) && FitBelow(stored) && g in stored && h in stored
    requires Digest(d, g) == Digest(d, h)
    ensures g == h
    decreases g, 1
  {
    assert Hashed(d, g) == Hashed(d, h);
    if g.NodeHash? {
      assert h.NodeHash?;
      var cs, es := g.node.children, h.node.children;
      hide CollisionFree, AsEntries, FitBelow, Written;
      FitOf(stored, g);
      FitOf(stored, h);
      WrittenIsEncoded(d, cs);
      WrittenIsEncoded(d, es);
      EncodingInjective(AsEntries(d, cs), AsEntries(d, es));
      assert AllIn(stored, cs) && AllIn(stored, es);
      EntriesName(d, stored, cs, es);
      assert g.node == h.node;
    }
  }

  lemma FitOf(stored: set<Hash>, h: Hash)
    requires FitBelow(stored) && h in stored && h.NodeHash?
    ensures TotalsFit(h.node.children)
  {
  }

  lemma {:induction false} EntriesName(d: Hasher, stored: set<Hash>, cs: seq<Child>, es: seq<Child>)
    requires Sized(d) && CollisionFree(d, stored) && Closed(stored) && FitBelow(stored)
    requires AllIn(stored, cs) && AllIn(stored, es) && AsEntries(d, cs) == AsEntries(d, es)
    ensures cs == es
    decreases cs, 0
  {
    if cs == [] {
      assert es == [];
    } else {
      assert es != [] && AsEntries(d, cs)[0] == AsEntry(d, cs[0]) && AsEntries(d, es)[0] == AsEntry(d, es[0]);
      assert AsEntries(d, cs)[1..] == AsEntries(d, cs[1..]) && AsEntries(d, es)[1..] == AsEntries(d, es[1..]);
      hide CollisionFree, Closed, FitBelow, AsEntries, Digest;
      assert cs[0].hash < cs[0];
      DigestNames(d, stored, cs[0].hash, es[0].hash);
      assert forall i | 0 <= i < |cs[1..]| :: cs[1..][i] == cs[i + 1];
      assert forall i | 0 <= i < |es[1..]| :: es[1..][i] == es[i + 1];
      EntriesName(d, stored, cs[1..], es[1..]);
      assert cs == [cs[0]] + cs[1..] && es == [es[0]] + es[1..];
    }
  }

  // ----- documents -----

  /** Below an entry of at most as many bytes as a word can count, all totals fit. */
  lemma {:induction false} EntryFits(level: nat, c: Child)
    requires WellFormed(level, c) && c.nbytes < WORD
    ensures FitBelow(Below(c.hash)) && c.nlines < WORD
    decreases level, 1
  {
    EntryTotals(level, c);
    FewerLines(TextOf(c.hash));
    if level > 0 {
      EntriesFit(level - 1, c.hash.node.children);
      assert c.hash.node.NBytes() == c.nbytes;
    }
  }

  lemma {:induction false} FewerLines(t: Bytes)
    ensures CountNewlines(t) <= |t|
    decreases |t|
  {
    if t != [] {
      FewerLines(t[..|t| - 1]);
    }
  }

  lemma {:induction false} EntriesFit(level: nat, cs: seq<Child>)
    requires AllWellFormed(level, cs) && SumBytes(cs) < WORD
    ensures TotalsFit(cs) && FitBelow(BelowAll(cs))
    decreases level, 2, |cs|
  {
    if cs != [] {
      assert WellFormed(level, cs[0]);
      EntryFits(level, cs[0]);
      assert AllWellFormed(level, cs[1..]);
      EntriesFit(level, cs[1..]);
      assert cs == [cs[0]] + cs[1..];
    }
  }

  lemma {:induction false} DocumentFits(cfg: Config, t: Bytes)
    requires cfg.Valid() && |t| < WORD
    ensures var h := BuildRoot(cfg, t); h in Below(h) && Closed(Below(h)) && FitBelow(Below(h))
  {
    var h := BuildRoot(cfg, t);
    var top := BuiltRoot(cfg, t);
    BelowClosed(h);
    CanonicalFits(cfg, t, top);
    EntriesFit(top, h.node.children);
  }

  lemma {:induction false} CanonicalFits(cfg: Config, t: Bytes, top: nat)
    requires cfg.Valid() && BuildRoot(cfg, t).NodeHash? && TextOf(BuildRoot(cfg, t)) == t
    requires AllWellFormed(top, BuildRoot(cfg, t).node.children)
    ensures SumBytes(BuildRoot(cfg, t).node.children) == |t|
  {
    SumsAreTotals(top, BuildRoot(cfg, t).node.children);
  }

  /** Two documents have one root digest exactly when they are equal, if nothing in their trees collides. */
  lemma {:induction false} DigestsNameDocuments(cfg: Config, d: Hasher, s: Bytes, t: Bytes)
    requires cfg.Valid() && Sized(d) && |s| < WORD && |t| < WORD
    requires CollisionFree(d, Below(BuildRoot(cfg, s)) + Below(BuildRoot(cfg, t)))
    ensures Digest(d, BuildRoot(cfg, s)) == Digest(d, BuildRoot(cfg, t)) <==> s == t
  {
    hide Sized, CollisionFree, Closed, Digest, BuildRoot, Below;
    var g, h := BuildRoot(cfg, s), BuildRoot(cfg, t);
    DocumentFits(cfg, s);
    DocumentFits(cfg, t);
    RootsNameDocuments(cfg, s, t);
    ClosedUnion(Below(g), Below(h));
    if Digest(d, g) == Digest(d, h) {
      DigestNames(d, Below(g) + Below(h), g, h);
    }
  }
}
