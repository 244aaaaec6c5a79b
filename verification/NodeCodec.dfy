/** The canonical encoding of a tree node: fixed-width entries, one after another. */
module NodeCodec {
  import opened Text

  const HASH_LEN: nat := 32
  const WORD_LEN: nat := 8
  const CHILD_ENC_LEN: nat := 49
  const WORD: nat := 0x1_0000_0000_0000_0000

  /** An entry as it is written: a 32-byte hash, two 64-bit totals and a flag. */
  datatype Entry = Entry(hash: Bytes, nbytes: nat, nlines: nat, isLeaf: bool)
  {
    predicate Fits() {
      |hash| == HASH_LEN && nbytes < WORD && nlines < WORD
    }
  }

  predicate AllFit(es: seq<Entry>) {
    forall i | 0 <= i < |es| :: es[i].Fits()
  }

  // ----- little-endian words -----

  function Pow256(k: nat): (p: nat)
    ensures p > 0
  {
    if k == 0 then 1 else 256 * Pow256(k - 1)
  }

  function LeBytes(n: nat, k: nat): (bs: Bytes)
    ensures |bs| == k
  {
    if k == 0 then [] else [(n % 256) as byte] + LeBytes(n / 256, k - 1)
  }

  function FromLe(bs: Bytes): nat {
    if bs == [] then 0 else bs[0] as nat + 256 * FromLe(bs[1..])
  }

  lemma {:induction false} LeRoundTrip(n: nat, k: nat)
    requires n < Pow256(k)
    ensures FromLe(LeBytes(n, k)) == n
    decreases k
  {
    if k > 0 {
      LeRoundTrip(n / 256, k - 1);
    }
  }

  lemma DigitAndRest(d: nat, m: nat)
    requires d < 256
    ensures (d + 256 * m) % 256 == d && (d + 256 * m) / 256 == m
  {
  }

  lemma {:induction false} FromLeRoundTrip(bs: Bytes)
    ensures FromLe(bs) < Pow256(|bs|) && LeBytes(FromLe(bs), |bs|) == bs
    decreases |bs|
  {
    if bs != [] {
      FromLeRoundTrip(bs[1..]);
      DigitAndRest(bs[0] as nat, FromLe(bs[1..]));
      assert bs == [bs[0]] + bs[1..];
    }
  }

  lemma WordIs()
    ensures Pow256(WORD_LEN) == WORD
  {
    assert Pow256(2) == 65536;
    assert Pow256(4) == 0x1_0000_0000;
    assert Pow256(6) == 0x1_0000_0000_0000;
  }

  // ----- entries -----

  function EncodeEntry(e: Entry): (bs: Bytes)
    requires e.Fits()
    ensures |bs| == CHILD_ENC_LEN
  {
    e.hash + LeBytes(e.nbytes, WORD_LEN) + LeBytes(e.nlines, WORD_LEN) + [if e.isLeaf then 1 else 0]
  }

  function DecodeEntry(bs: Bytes): (r: Option<Entry>)
    requires |bs| == CHILD_ENC_LEN
    ensures r.Some? <==> bs[48] <= 1
  {
    if bs[48] > 1 then None
    else Some(Entry(bs[..32], FromLe(bs[32..40]), FromLe(bs[40..48]), bs[48] == 1))
  }

  /** The eight bytes from `i` on, the first weighing least. */
  function WordAt(bs: Bytes, i: nat): nat
    requires i + 8 <= |bs|
  {
    bs[i] as nat + 256 * bs[i + 1] as nat + 65536 * bs[i + 2] as nat + 16777216 * bs[i + 3] as nat
      + 4294967296 * bs[i + 4] as nat + 1099511627776 * bs[i + 5] as nat + 281474976710656 * bs[i + 6] as nat
      + 72057594037927936 * bs[i + 7] as nat
  }

  lemma EightDigits(n: nat)
    requires n < WORD
    ensures WordAt(LeBytes(n, 8), 0) == n
  {
    hide LeBytes;
    LeStep(n, 8);
    LeStep(n / 256, 7);
    LeStep(n / 256 / 256, 6);
    LeStep(n / 256 / 256 / 256, 5);
    LeStep(n / 256 / 256 / 256 / 256, 4);
    LeStep(n / 256 / 256 / 256 / 256 / 256, 3);
    LeStep(n / 256 / 256 / 256 / 256 / 256 / 256, 2);
    LeStep(n / 256 / 256 / 256 / 256 / 256 / 256 / 256, 1);
  }

  lemma LeStep(n: nat, k: nat)
    requires k > 0
    ensures LeBytes(n, k)[0] as nat == n % 256 && LeBytes(n, k)[1..] == LeBytes(n / 256, k - 1)
  {
  }

  /** Where the parts of an entry are: its hash, its bytes, its lines, its flag. */
  lemma {:induction false} EntryLayout(e: Entry)
    requires e.Fits()
    ensures var bs := EncodeEntry(e);
      && |bs| == 49 && bs[..32] == e.hash && WordAt(bs, 32) == e.nbytes && WordAt(bs, 40) == e.nlines
      && bs[48] == if e.isLeaf then 1 else 0
  {
    hide LeBytes, Pow256;
    EightDigits(e.nbytes);
    EightDigits(e.nlines);
    Fields(e.hash, LeBytes(e.nbytes, 8), LeBytes(e.nlines, 8), if e.isLeaf then 1 else 0);
    var bs := EncodeEntry(e);
    assert WordAt(bs, 32) == WordAt(bs[32..40], 0) && WordAt(bs, 40) == WordAt(bs[40..48], 0);
  }

  lemma EntryRoundTrip(e: Entry)
    requires e.Fits()
    ensures DecodeEntry(EncodeEntry(e)) == Some(e)
  {
    hide FromLe, LeBytes, Pow256;
    var bs := EncodeEntry(e);
    WordIs();
    LeRoundTrip(e.nbytes, WORD_LEN);
    LeRoundTrip(e.nlines, WORD_LEN);
    Fields(e.hash, LeBytes(e.nbytes, WORD_LEN), LeBytes(e.nlines, WORD_LEN), if e.isLeaf then 1 else 0);
  }

  lemma Fields(h: Bytes, x: Bytes, y: Bytes, flag: byte)
    requires |h| == 32 && |x| == 8 && |y| == 8
    ensures var bs := h + x + y + [flag];
      |bs| == 49 && bs[..32] == h && bs[32..40] == x && bs[40..48] == y && bs[48] == flag
  {
  }

  lemma DecodedEntryRoundTrip(bs: Bytes)
    requires |bs| == CHILD_ENC_LEN && DecodeEntry(bs).Some?
    ensures DecodeEntry(bs).value.Fits() && EncodeEntry(DecodeEntry(bs).value) == bs
  {
    hide FromLe, LeBytes, Pow256;
    WordIs();
    FromLeRoundTrip(bs[32..40]);
    FromLeRoundTrip(bs[40..48]);
    Whole(bs);
  }

  lemma Whole(bs: Bytes)
    requires |bs| == 49
    ensures bs == bs[..32] + bs[32..40] + bs[40..48] + [bs[48]]
  {
  }

  // ----- nodes -----

  function EncodeAll(es: seq<Entry>): (bs: Bytes)
    requires AllFit(es)
    ensures |bs| == CHILD_ENC_LEN * |es|
  {
    if es == [] then [] else EncodeEntry(es[0]) + EncodeAll(es[1..])
  }

  function DecodeAll(bs: Bytes): (r: Option<seq<Entry>>)
    requires |bs| % CHILD_ENC_LEN == 0
  {
    if bs == [] then Some([])
    else
      var e := DecodeEntry(bs[..CHILD_ENC_LEN]);
      if e.None? then None
      else
        var rest := DecodeAll(bs[CHILD_ENC_LEN..]);
        if rest.None? then None else Some([e.value] + rest.value)
  }

  /** `None` on a length that is no whole number of entries, or on a flag that is neither 0 nor 1. */
  function Decode(bs: Bytes): Option<seq<Entry>> {
    if |bs| % CHILD_ENC_LEN != 0 then None else DecodeAll(bs)
  }

  /** Decoding undoes encoding. */
  lemma {:induction false} RoundTrip(es: seq<Entry>)
    requires AllFit(es)
    ensures Decode(EncodeAll(es)) == Some(es)
    decreases |es|
  {
    hide EncodeEntry, DecodeEntry;
    if es != [] {
      var bs, first := EncodeAll(es), EncodeEntry(es[0]);
      RoundTrip(es[1..]);
      EntryRoundTrip(es[0]);
      assert bs[..CHILD_ENC_LEN] == first && bs[CHILD_ENC_LEN..] == EncodeAll(es[1..]);
      assert es == [es[0]] + es[1..];
    }
  }

  /** Whatever decodes is the encoding of what it decodes to: no node has two encodings. */
  lemma {:induction false} DecodedRoundTrip(bs: Bytes)
    requires Decode(bs).Some?
    ensures AllFit(Decode(bs).value) && EncodeAll(Decode(bs).value) == bs
    decreases |bs|
  {
    hide EncodeEntry, DecodeEntry;
    if bs != [] {
      var head, tail := bs[..CHILD_ENC_LEN], bs[CHILD_ENC_LEN..];
      DecodedRoundTrip(tail);
      DecodedEntryRoundTrip(head);
      var es := Decode(bs).value;
      assert es[0] == DecodeEntry(head).value && es[1..] == DecodeAll(tail).value;
      assert bs == head + tail;
    }
  }

  /** So two nodes have the same encoding only if they are the same. */
  lemma EncodingInjective(es: seq<Entry>, fs: seq<Entry>)
    requires AllFit(es) && AllFit(fs) && EncodeAll(es) == EncodeAll(fs)
    ensures es == fs
  {
    RoundTrip(es);
    RoundTrip(fs);
  }

  /** What decodes: whole entries, each with a flag that is 0 or 1. */
  lemma {:induction false} DecodableIff(bs: Bytes)
    ensures Decode(bs).Some? <==>
      |bs| % CHILD_ENC_LEN == 0 && forall i | 0 <= i < |bs| && i % CHILD_ENC_LEN == 48 :: bs[i] <= 1
    decreases |bs|
  {
    if bs != [] && |bs| % CHILD_ENC_LEN == 0 {
      var tail := bs[CHILD_ENC_LEN..];
      DecodableIff(tail);
      assert bs[..CHILD_ENC_LEN][48] == bs[48];
      FlagsOfTail(bs);
    }
  }

  lemma {:induction false} FlagsOfTail(bs: Bytes)
    requires |bs| >= CHILD_ENC_LEN
    ensures (forall i | 0 <= i < |bs| && i % CHILD_ENC_LEN == 48 :: bs[i] <= 1) <==>
      bs[48] <= 1 && forall i | 0 <= i < |bs| - CHILD_ENC_LEN && i % CHILD_ENC_LEN == 48 :: bs[CHILD_ENC_LEN..][i] <= 1
  {
    var tail := bs[CHILD_ENC_LEN..];
    if bs[48] <= 1 && forall i | 0 <= i < |tail| && i % CHILD_ENC_LEN == 48 :: tail[i] <= 1 {
      forall i | 0 <= i < |bs| && i % CHILD_ENC_LEN == 48 ensures bs[i] <= 1 {
        if i >= CHILD_ENC_LEN {
          assert tail[i - CHILD_ENC_LEN] == bs[i] && (i - CHILD_ENC_LEN) % CHILD_ENC_LEN == 48;
        }
      }
    }
    if forall i | 0 <= i < |bs| && i % CHILD_ENC_LEN == 48 :: bs[i] <= 1 {
      forall i | 0 <= i < |tail| && i % CHILD_ENC_LEN == 48 ensures tail[i] <= 1 {
        assert tail[i] == bs[i + CHILD_ENC_LEN] && (i + CHILD_ENC_LEN) % CHILD_ENC_LEN == 48;
      }
    }
  }

  // ----- the loops -----

  method Encode(es: seq<Entry>) returns (out: Bytes)
    requires AllFit(es)
    ensures out == EncodeAll(es)
  {
    hide EncodeEntry;
    out := [];
    var i := 0;
    ghost var rest := es;
    while i < |es|
      invariant i <= |es| && rest == es[i..] && AllFit(rest) && out + EncodeAll(rest) == EncodeAll(es)
    {
      out := out + EncodeEntry(es[i]);
      rest := rest[1..];
      i := i + 1;
    }
  }

  method DecodeNode(bytes: Bytes) returns (r: Option<seq<Entry>>)
    ensures r == Decode(bytes)
  {
    hide DecodeEntry;
    if |bytes| % CHILD_ENC_LEN != 0 {
      return None;
    }
    var children := [];
    var rest := bytes;
    AfterNone(children, DecodeAll(rest));
    while rest != []
      invariant |rest| % CHILD_ENC_LEN == 0
      invariant DecodeAll(bytes) == After(children, DecodeAll(rest))
      decreases |rest|
    {
      var e := DecodeEntry(rest[..CHILD_ENC_LEN]);
      if e.None? {
        return None;
      }
      AfterOne(children, e.value, DecodeAll(rest[CHILD_ENC_LEN..]));
      children := children + [e.value];
      rest := rest[CHILD_ENC_LEN..];
    }
    assert children + [] == children;
    return Some(children);
  }

  /** Entries already decoded, and the rest. */
  function After(done: seq<Entry>, rest: Option<seq<Entry>>): Option<seq<Entry>> {
    if rest.None? then None else Some(done + rest.value)
  }

  lemma AfterNone(done: seq<Entry>, rest: Option<seq<Entry>>)
    requires done == []
    ensures After(done, rest) == rest
  {
    if rest.Some? {
      assert [] + rest.value == rest.value;
    }
  }

  lemma AfterOne(done: seq<Entry>, e: Entry, rest: Option<seq<Entry>>)
    ensures After(done, if rest.None? then None else Some([e] + rest.value)) == After(done + [e], rest)
  {
    if rest.Some? {
      assert done + ([e] + rest.value) == (done + [e]) + rest.value;
    }
  }
}
