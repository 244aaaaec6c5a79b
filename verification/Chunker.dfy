/** The content-defined chunker: a gear-hash cut with a forward snap to the next newline. */
module Chunker {
  import opened Text

  /** Sizes in bytes. `gear`, `hitS` and `hitL` stand for the fixed gear table and the two mask
      tests of the on-disk format; nothing below depends on their values. */
  datatype ChunkParams = ChunkParams(
    min: nat, avg: nat, max: nat, snap: nat,
    gear: byte -> nat, hitS: nat -> bool, hitL: nat -> bool)
  {
    ghost predicate Valid() {
      0 < snap <= min < max
    }

    function Lookahead(): nat {
      max + snap
    }

    function Roll(h: nat, b: byte): nat {
      (2 * h + gear(b)) % 0x1_0000_0000_0000_0000
    }

    /** The harder mask applies before `avg`, the easier one from there on. */
    predicate Hit(h: nat, i: nat) {
      if i < avg then hitS(h) else hitL(h)
    }
  }

  /** The end of the first position in [i, limit) whose rolling hash hits, given the hash so far. */
  function FirstHit(p: ChunkParams, buf: Bytes, h: nat, i: nat, limit: nat): Option<nat>
    requires i <= limit <= |buf|
    decreases limit - i
  {
    if i == limit then None
    else
      var h' := p.Roll(h, buf[i]);
      if p.Hit(h', i) then Some(i + 1) else FirstHit(p, buf, h', i + 1, limit)
  }

  /** Just past the first newline of buf[from..end]. */
  function NextLineEnd(buf: Bytes, from: nat, end: nat): (r: Option<nat>)
    requires from <= end <= |buf|
    ensures r.Some? ==> from < r.value <= end && buf[r.value - 1] == NL
    decreases end - from
  {
    if from == end then None
    else if buf[from] == NL then Some(from + 1)
    else NextLineEnd(buf, from + 1, end)
  }

  /** A boundary after a newline stays; any other moves to the next line end within `snap` bytes. */
  function Snap(p: ChunkParams, buf: Bytes, boundary: nat): (r: nat)
    requires boundary <= |buf|
    ensures boundary <= r <= Min(boundary + p.snap, |buf|)
    ensures r == boundary || buf[r - 1] == NL
  {
    if boundary > 0 && buf[boundary - 1] == NL then boundary
    else
      match NextLineEnd(buf, boundary, Min(boundary + p.snap, |buf|))
      case Some(e) => e
      case None => boundary
  }

  /** The cut that the hit tests alone would make in a buffer longer than `min`. */
  function RawCut(p: ChunkParams, buf: Bytes): (r: nat)
    requires p.Valid() && p.min < |buf|
    ensures p.min < r <= Min(|buf|, p.max)
  {
    var limit := Min(|buf|, p.max);
    FirstHitRange(p, buf, 0, p.min, limit);
    match FirstHit(p, buf, 0, p.min, limit)
    case Some(e) => e
    case None => limit
  }

  lemma FirstHitRange(p: ChunkParams, buf: Bytes, h: nat, i: nat, limit: nat)
    requires i <= limit <= |buf|
    ensures FirstHit(p, buf, h, i, limit).Some? ==> i < FirstHit(p, buf, h, i, limit).value <= limit
    decreases limit - i
  {
    if i < limit && !p.Hit(p.Roll(h, buf[i]), i) {
      FirstHitRange(p, buf, p.Roll(h, buf[i]), i + 1, limit);
    }
  }

  /** The length of the first chunk of a whole remaining document. */
  function CutLen(p: ChunkParams, t: Bytes): (c: nat)
    requires p.Valid()
    ensures c <= |t|
    ensures t != [] ==> 0 < c <= p.max + p.snap
    ensures c < |t| ==> p.min < c
  {
    if |t| <= p.min then |t| else Snap(p, t, RawCut(p, t))
  }

  /** The decision with only `buf` in hand: `None` while more input may still change it. */
  function CutAt(p: ChunkParams, buf: Bytes, eof: bool): Option<nat>
    requires p.Valid()
  {
    if !eof && |buf| < p.Lookahead() then None else Some(CutLen(p, buf))
  }

  method Cut(p: ChunkParams, buf: Bytes, eof: bool) returns (r: Option<nat>)
    requires p.Valid()
    ensures r == CutAt(p, buf, eof)
  {
    var n := |buf|;
    if !eof && n < p.Lookahead() {
      return None;
    }
    if n <= p.min {
      // eof holds here, because the look-ahead exceeds min
      return Some(n);
    }
    var limit := Min(n, p.max);
    var h: nat := 0;
    var i := p.min;
    var avg := Min(p.avg, limit);
    ghost var hit := FirstHit(p, buf, 0, p.min, limit);
    assert CutAt(p, buf, eof) == Some(Snap(p, buf, RawCut(p, buf)));
    assert RawCut(p, buf) == match hit case Some(e) => e case None => limit;
    while i < avg
      invariant p.min <= i <= limit
      invariant FirstHit(p, buf, h, i, limit) == hit
    {
      h := p.Roll(h, buf[i]);
      if p.hitS(h) {
        return Some(Snap(p, buf, i + 1));
      }
      i := i + 1;
    }
    while i < limit
      invariant p.min <= i <= limit && avg <= i
      invariant FirstHit(p, buf, h, i, limit) == hit
    {
      h := p.Roll(h, buf[i]);
      if p.hitL(h) {
        return Some(Snap(p, buf, i + 1));
      }
      i := i + 1;
    }
    if limit == n && eof {
      return Some(n);
    }
    return Some(Snap(p, buf, limit));
  }

  /** The one chunking of a document. */
  function Chunks(p: ChunkParams, t: Bytes): seq<Bytes>
    requires p.Valid()
    decreases |t|
  {
    if t == [] then []
    else
      var c := CutLen(p, t);
      [t[..c]] + Chunks(p, t[c..])
  }

  function Concat(parts: seq<Bytes>): Bytes {
    if parts == [] then [] else parts[0] + Concat(parts[1..])
  }

  /** The (start, length) pairs of consecutive parts from `pos` on. */
  function Spans(pos: nat, parts: seq<Bytes>): seq<(nat, nat)>
    decreases |parts|
  {
    if parts == [] then [] else [(pos, |parts[0]|)] + Spans(pos + |parts[0]|, parts[1..])
  }

  lemma ChunksAt(p: ChunkParams, t: Bytes, pos: nat)
    requires p.Valid() && pos < |t|
    ensures var len := CutLen(p, t[pos..]);
      Chunks(p, t[pos..]) == [t[pos..pos + len]] + Chunks(p, t[pos + len..])
  {
    var len := CutLen(p, t[pos..]);
    assert t[pos..][..len] == t[pos..pos + len] && t[pos..][len..] == t[pos + len..];
  }

  lemma SpansStep(done: seq<(nat, nat)>, pos: nat, part: Bytes, parts: seq<Bytes>)
    ensures done + Spans(pos, [part] + parts) == (done + [(pos, |part|)]) + Spans(pos + |part|, parts)
  {
    assert ([part] + parts)[1..] == parts;
    var rest := Spans(pos + |part|, parts);
    assert done + ([(pos, |part|)] + rest) == (done + [(pos, |part|)]) + rest;
  }

  method ChunkAll(p: ChunkParams, t: Bytes) returns (spans: seq<(nat, nat)>)
    requires p.Valid()
    ensures spans == Spans(0, Chunks(p, t))
  {
    hide Chunks, Spans;
    spans := [];
    var pos := 0;
    assert t[0..] == t;
    SpansOfNothing(Spans(0, Chunks(p, t)));
    while pos < |t|
      invariant pos <= |t|
      invariant spans + Spans(pos, Chunks(p, t[pos..])) == Spans(0, Chunks(p, t))
    {
      var len := Cut(p, t[pos..], true);
      ChunksAt(p, t, pos);
      SpansStep(spans, pos, t[pos..pos + len.value], Chunks(p, t[pos + len.value..]));
      spans := spans + [(pos, len.value)];
      pos := pos + len.value;
    }
    NoChunksLeft(p, t, pos, spans);
  }

  lemma SpansOfNothing(spans: seq<(nat, nat)>)
    ensures [] + spans == spans
  {
  }

  lemma NoChunksLeft(p: ChunkParams, t: Bytes, pos: nat, spans: seq<(nat, nat)>)
    requires p.Valid() && pos == |t|
    ensures spans + Spans(pos, Chunks(p, t[pos..])) == spans
  {
    assert t[pos..] == [];
  }

  /** Each span cuts its part out of the concatenation. */
  lemma {:induction false} SpanIsPart(pos: nat, parts: seq<Bytes>, i: nat)
    requires i < |parts|
    ensures |Spans(pos, parts)| == |parts|
    ensures var (s, len) := Spans(pos, parts)[i];
      pos <= s && s - pos + len <= |Concat(parts)| && Concat(parts)[s - pos..s - pos + len] == parts[i]
    decreases |parts|
  {
    if i > 0 {
      SpanIsPart(pos + |parts[0]|, parts[1..], i - 1);
      var (s, len) := Spans(pos, parts)[i];
      var from := s - (pos + |parts[0]|);
      assert Concat(parts)[|parts[0]| + from..|parts[0]| + from + len] == Concat(parts[1..])[from..from + len];
    } else {
      SpansLength(pos, parts);
    }
  }

  lemma {:induction false} SpansLength(pos: nat, parts: seq<Bytes>)
    ensures |Spans(pos, parts)| == |parts|
    decreases |parts|
  {
    if parts != [] {
      SpansLength(pos + |parts[0]|, parts[1..]);
    }
  }

  // ----- what a cut depends on -----

  lemma {:induction false} FirstHitAgrees(p: ChunkParams, s: Bytes, t: Bytes, h: nat, i: nat, limit: nat)
    requires i <= limit <= |s| && limit <= |t|
    requires forall j | i <= j < limit :: s[j] == t[j]
    ensures FirstHit(p, s, h, i, limit) == FirstHit(p, t, h, i, limit)
    decreases limit - i
  {
    if i < limit {
      FirstHitAgrees(p, s, t, p.Roll(h, s[i]), i + 1, limit);
    }
  }

  /** A hit is found whatever the limit, as long as the limit reaches it. */
  lemma {:induction false} FirstHitLimit(p: ChunkParams, s: Bytes, h: nat, i: nat, e: nat, limit: nat)
    requires i < e <= limit <= |s|
    ensures FirstHit(p, s, h, i, limit) == Some(e) <==> FirstHit(p, s, h, i, e) == Some(e)
    decreases limit - i
  {
    var h' := p.Roll(h, s[i]);
    if !p.Hit(h', i) {
      if i + 1 < e {
        FirstHitLimit(p, s, h', i + 1, e, limit);
      } else {
        FirstHitRange(p, s, h', e, limit);
      }
    }
  }

  lemma RawCutStable(p: ChunkParams, s: Bytes, t: Bytes)
    requires p.Valid() && p.min < |s|
    requires RawCut(p, s) < |s| || |s| == p.max
    requires RawCut(p, s) <= |t| && forall i | 0 <= i < RawCut(p, s) :: s[i] == t[i]
    ensures RawCut(p, t) == RawCut(p, s)
  {
    var b := RawCut(p, s);
    var limitS, limitT := Min(|s|, p.max), Min(|t|, p.max);
    if FirstHit(p, s, 0, p.min, limitS) == Some(b) {
      FirstHitLimit(p, s, 0, p.min, b, limitS);
      FirstHitAgrees(p, s, t, 0, p.min, b);
      FirstHitLimit(p, t, 0, p.min, b, limitT);
    } else {
      assert b == p.max == limitS == limitT;
      FirstHitAgrees(p, s, t, 0, p.min, b);
    }
  }

  lemma {:induction false} NextLineEndAgrees(s: Bytes, t: Bytes, from: nat, end: nat)
    requires from <= end <= |s| && end <= |t|
    requires forall i | from <= i < end :: s[i] == t[i]
    ensures NextLineEnd(s, from, end) == NextLineEnd(t, from, end)
    decreases end - from
  {
    if from < end {
      NextLineEndAgrees(s, t, from + 1, end);
    }
  }

  lemma {:induction false} NextLineEndLimit(s: Bytes, from: nat, e: nat, end: nat)
    requires from < e <= end <= |s|
    ensures NextLineEnd(s, from, end) == Some(e) <==> NextLineEnd(s, from, e) == Some(e)
    decreases end - from
  {
    if s[from] != NL {
      if from + 1 < e {
        NextLineEndLimit(s, from + 1, e, end);
      }
    }
  }

  lemma SnapStable(p: ChunkParams, s: Bytes, t: Bytes, b: nat, shared: nat)
    requires 0 < b <= |s| && b <= Snap(p, s, b) <= shared <= |s| && shared <= |t|
    requires forall i | 0 <= i < shared :: s[i] == t[i]
    requires s[Snap(p, s, b) - 1] == NL || Snap(p, s, b) + p.snap <= shared
    ensures Snap(p, t, b) == Snap(p, s, b)
  {
    var c := Snap(p, s, b);
    if s[b - 1] != NL {
      if b < c {
        NextLineEndLimit(s, b, c, Min(b + p.snap, |s|));
        NextLineEndAgrees(s, t, b, c);
        NextLineEndLimit(t, b, c, Min(b + p.snap, |t|));
      } else {
        NextLineEndAgrees(s, t, b, b + p.snap);
      }
    }
  }

  /** A cut that is not the end of its document survives any change behind it: a chunk ending in
      a newline depends on its own bytes only, any other chunk on `snap` bytes more. */
  lemma CutStable(p: ChunkParams, s: Bytes, t: Bytes, shared: nat)
    requires p.Valid()
    requires shared <= |s| && shared <= |t| && forall i | 0 <= i < shared :: s[i] == t[i]
    requires 0 < CutLen(p, s) < |s| && CutLen(p, s) <= shared
    requires s[CutLen(p, s) - 1] == NL || CutLen(p, s) + p.snap <= shared
    ensures CutLen(p, t) == CutLen(p, s)
  {
    RawCutStable(p, s, t);
    SnapStable(p, s, t, RawCut(p, s), shared);
  }

  /** A chunk that ends in a newline and does not end its document was decided by its own bytes
      alone: it is the first chunk of every text that begins with it. */
  lemma NewlineCutIsSelfContained(p: ChunkParams, s: Bytes, t: Bytes)
    requires p.Valid() && 0 < CutLen(p, s) < |s| && s[CutLen(p, s) - 1] == NL
    requires s[..CutLen(p, s)] <= t
    ensures CutLen(p, t) == CutLen(p, s)
  {
    CutStable(p, s, t, CutLen(p, s));
  }

  /** With `max + snap` bytes in hand, or the whole rest, the decision is already the final one. */
  lemma LookaheadIsFinal(p: ChunkParams, t: Bytes, m: nat)
    requires p.Valid() && m <= |t|
    requires m == |t| || p.Lookahead() <= m
    ensures CutAt(p, t[..m], m == |t|) == Some(CutLen(p, t))
  {
    hide NextLineEnd;
    if m == |t| {
      assert t[..m] == t;
    } else {
      var s := t[..m];
      var c := CutLen(p, s);
      if c < |s| {
        if s[c - 1] == NL || c + p.snap <= m {
          CutStable(p, s, t, m);
        }
      } else {
        // a full window: the snap reached its last byte, which is a newline
        var b := RawCut(p, s);
        assert b == p.max;
        RawCutStable(p, s, t);
        NextLineEndLimit(s, b, c, Min(b + p.snap, |s|));
        NextLineEndAgrees(s, t, b, c);
        NextLineEndLimit(t, b, c, Min(b + p.snap, |t|));
      }
    }
  }

  /** Chunks tile the document, and all but the last are longer than `min` and at most `max + snap`. */
  lemma {:induction false} ChunksTile(p: ChunkParams, t: Bytes)
    requires p.Valid()
    ensures Concat(Chunks(p, t)) == t
    ensures forall i | 0 <= i < |Chunks(p, t)| :: 0 < |Chunks(p, t)[i]| <= p.max + p.snap
    ensures forall i | 0 <= i < |Chunks(p, t)| - 1 :: p.min < |Chunks(p, t)[i]|
    decreases |t|
  {
    if t != [] {
      var c := CutLen(p, t);
      ChunksTile(p, t[c..]);
      assert t[..c] + t[c..] == t;
      if c == |t| {
        assert Chunks(p, t[c..]) == [];
      }
    }
  }
}
