/** The storage contract and its in-memory implementation: append-only content, one mutable root
    per file, changed by compare-and-swap only. */
module Storage {
  import opened Text
  import opened Nodes

  class MemStorage {
    var chunks: map<Hash, Bytes>
    var nodes: map<Hash, Node>
    var roots: map<nat, (Hash, nat)>
    var chunkBytesWritten: nat
    var nodeWrites: nat

    /** Content is stored under its own hash. */
    ghost predicate Valid()
      reads this`chunks, this`nodes
    {
      && (forall h | h in chunks :: h == ChunkHash(chunks[h]))
      && (forall h | h in nodes :: h == NodeHash(nodes[h]))
    }

    ghost function Stored(): set<Hash>
      reads this`chunks, this`nodes
    {
      chunks.Keys + nodes.Keys
    }

    /** Every tree in the store can be read to its leaves. Node writes come after the writes of what
        the node points at, so this holds between any two operations. */
    ghost predicate Sound()
      reads this`chunks, this`nodes
    {
      Valid() && Closed(Stored())
    }

    constructor ()
      ensures Sound() && Stored() == {} && roots == map[]
      ensures chunkBytesWritten == 0 && nodeWrites == 0
    {
      chunks, nodes, roots := map[], map[], map[];
      chunkBytesWritten, nodeWrites := 0, 0;
    }

    /** A stored node is found, and it is the one its hash names. */
    method NodeAt(h: Hash) returns (n: Node)
      requires Valid() && h in Stored() && h.NodeHash?
      ensures n == h.node
    {
      n := nodes[h];
    }

    method ChunkAt(h: Hash) returns (b: Bytes)
      requires Valid() && h in Stored() && h.ChunkHash?
      ensures b == h.chunk
    {
      b := chunks[h];
    }

    /** Idempotent: storing a chunk again changes nothing, and no write ever drops content. */
    method PutChunk(h: Hash, b: Bytes)
      requires Valid() && h == ChunkHash(b)
      modifies this`chunks, this`chunkBytesWritten
      ensures Valid()
      ensures Stored() == old(Stored()) + {h}
      ensures h in old(chunks) ==> chunks == old(chunks) && chunkBytesWritten == old(chunkBytesWritten)
      ensures h !in old(chunks) ==> chunks == old(chunks)[h := b] && chunkBytesWritten == old(chunkBytesWritten) + |b|
    {
      if h !in chunks {
        chunkBytesWritten := chunkBytesWritten + |b|;
        chunks := chunks[h := b];
      }
    }

    method PutNode(h: Hash, n: Node)
      requires Valid() && h == NodeHash(n)
      modifies this`nodes, this`nodeWrites
      ensures Valid()
      ensures Stored() == old(Stored()) + {h}
      ensures h in old(nodes) ==> nodes == old(nodes) && nodeWrites == old(nodeWrites)
      ensures h !in old(nodes) ==> nodes == old(nodes)[h := n] && nodeWrites == old(nodeWrites) + 1
    {
      if h !in nodes {
        nodeWrites := nodeWrites + 1;
        nodes := nodes[h := n];
      }
    }

    /** Replace the root of `file` if it is the expected one (`None`: the file has no root yet). */
    method CasRoot(file: nat, expected: Option<Hash>, root: Hash) returns (ok: bool)
      modifies this`roots
      ensures ok == (expected == if file in old(roots) then Some(old(roots)[file].0) else None)
      ensures !ok ==> roots == old(roots)
      ensures ok ==> roots == old(roots)[file := (root, if file in old(roots) then old(roots)[file].1 + 1 else 1)]
    {
      var cur := if file in roots then Some(roots[file].0) else None;
      if cur != expected {
        return false;
      }
      var v := if file in roots then roots[file].1 else 0;
      roots := roots[file := (root, v + 1)];
      return true;
    }
  }
}
