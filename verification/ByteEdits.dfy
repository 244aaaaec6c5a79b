/** Byte-range edits that turn one text into another: a line diff, each hunk trimmed of shared bytes. */
module ByteEdits {
  import opened Text
  import opened Splicing
  import opened Chunker
  import opened Lines
  import opened Scripts
  import opened SequenceDiff

  /** The budget of every line diff. */
  const MAX_LINE_D: nat := 4096

  function LineDiff(a: Bytes, b: Bytes): seq<Hunk> {
    DiffHunks(SplitLines(a), SplitLines(b), MAX_LINE_D)
  }

  /** Where line `i` of the split text starts. */
  function Offset(ls: seq<Bytes>, i: nat): nat
    requires i <= |ls|
  {
    |Concat(ls[..i])|
  }

  ghost predicate AreOffsets(ls: seq<Bytes>, offs: seq<nat>) {
    |offs| == |ls| + 1 && forall i | 0 <= i <= |ls| :: offs[i] == Offset(ls, i)
  }

  method LineOffsets(ls: seq<Bytes>) returns (offs: seq<nat>)
    ensures AreOffsets(ls, offs)
  {
    offs := [0];
    var i := 0;
    while i < |ls|
      invariant i <= |ls| && |offs| == i + 1
      invariant forall j | 0 <= j <= i :: offs[j] == Offset(ls, j)
    {
      assert ls[..i + 1] == ls[..i] + [ls[i]];
      ConcatAppend(ls[..i], [ls[i]]);
      ConcatOne(ls[i]);
      offs := offs + [offs[i] + |ls[i]|];
      i := i + 1;
    }
  }

  /** The edits turn the first `x` bytes of `a` into the first `y` bytes of `b`. */
  ghost predicate Turns(a: Bytes, b: Bytes, edits: seq<Edit>, x: nat, y: nat) {
    x <= |a| && y <= |b| && Ascending(edits, 0, x) && Splice(a[..x], edits) == b[..y]
  }

  lemma TurnsMore(a: Bytes, b: Bytes, edits: seq<Edit>, x: nat, y: nat, x': nat, y': nat)
    requires Turns(a, b, edits, x, y) && Same(a, b, x, x', y, y')
    ensures Turns(a, b, edits, x', y')
  {
    SpliceMore(a, edits, 0, x, x');
    assert b[..y'] == b[..y] + b[y..y'];
  }

  lemma TurnsSnoc(a: Bytes, b: Bytes, edits: seq<Edit>, x: nat, y: nat, x': nat, y': nat)
    requires Turns(a, b, edits, x, y) && x <= x' <= |a| && y <= y' <= |b|
    ensures Turns(a, b, edits + [Edit(x, x', b[y..y'])], x', y')
  {
    SpliceSnoc(a, edits, 0, x, Edit(x, x', b[y..y']));
    assert a[x..x] == [];
    assert b[..y'] == b[..y] + b[y..y'];
  }

  /** Shared lines are shared bytes. */
  lemma SameLinesSameBytes(a: Bytes, b: Bytes, i: nat, i': nat, j: nat, j': nat)
    requires Same(SplitLines(a), SplitLines(b), i, i', j, j')
    ensures Same(a, b, Offset(SplitLines(a), i), Offset(SplitLines(a), i'), Offset(SplitLines(b), j),
      Offset(SplitLines(b), j'))
  {
    SplitJoins(a);
    SplitJoins(b);
    ConcatThree(SplitLines(a), i, i');
    ConcatThree(SplitLines(b), j, j');
  }

  /** How many bytes two stretches both start with. */
  function Front(a: Bytes, b: Bytes, af: nat, at: nat, bf: nat, bt: nat): (n: nat)
    requires af <= at <= |a| && bf <= bt <= |b|
    ensures af + n <= at && bf + n <= bt
    decreases at - af
  {
    if af < at && bf < bt && a[af] == b[bf] then 1 + Front(a, b, af + 1, at, bf + 1, bt) else 0
  }

  /** And how many they both end with. */
  function Back(a: Bytes, b: Bytes, af: nat, at: nat, bf: nat, bt: nat): (n: nat)
    requires af <= at <= |a| && bf <= bt <= |b|
    ensures af + n <= at && bf + n <= bt
    decreases at - af
  {
    if af < at && bf < bt && a[at - 1] == b[bt - 1] then 1 + Back(a, b, af, at - 1, bf, bt - 1) else 0
  }

  /** What is left to change between two stretches, if anything. */
  function Trimmed(a: Bytes, b: Bytes, af: nat, at: nat, bf: nat, bt: nat): seq<Edit>
    requires af <= at <= |a| && bf <= bt <= |b|
  {
    var f := Front(a, b, af, at, bf, bt);
    var k := Back(a, b, af + f, at, bf + f, bt);
    if af + f == at - k && bf + f == bt - k then [] else [Edit(af + f, at - k, b[bf + f..bt - k])]
  }

  ghost function EditFor(a: Bytes, b: Bytes, h: Hunk): seq<Edit>
    requires h.aFrom <= h.aTo <= |SplitLines(a)| && h.bFrom <= h.bTo <= |SplitLines(b)|
  {
    var al, bl := SplitLines(a), SplitLines(b);
    OffsetsOrdered(a, h.aFrom, h.aTo);
    OffsetsOrdered(b, h.bFrom, h.bTo);
    Trimmed(a, b, Offset(al, h.aFrom), Offset(al, h.aTo), Offset(bl, h.bFrom), Offset(bl, h.bTo))
  }

  /** The edits of the first `i` hunks of lines. */
  ghost function EditsFor(a: Bytes, b: Bytes, hunks: seq<Hunk>, i: nat): seq<Edit>
    requires AllFollow(SplitLines(a), SplitLines(b), hunks) && i <= |hunks|
  {
    if i == 0 then []
    else
      assert Follows(SplitLines(a), SplitLines(b), hunks, i - 1);
      EditsFor(a, b, hunks, i - 1) + EditFor(a, b, hunks[i - 1])
  }

  /** The edits a line diff comes to. */
  ghost function LineEdits(a: Bytes, b: Bytes): seq<Edit> {
    DiffIsScript(SplitLines(a), SplitLines(b), MAX_LINE_D);
    EditsFor(a, b, LineDiff(a, b), |LineDiff(a, b)|)
  }

  method TrimFront(a: Bytes, b: Bytes, af0: nat, at: nat, bf0: nat, bt: nat) returns (n: nat)
    requires af0 <= at <= |a| && bf0 <= bt <= |b|
    ensures n == Front(a, b, af0, at, bf0, bt) && Same(a, b, af0, af0 + n, bf0, bf0 + n)
    ensures af0 + n < at && bf0 + n < bt ==> a[af0 + n] != b[bf0 + n]
  {
    n := 0;
    while af0 + n < at && bf0 + n < bt && a[af0 + n] == b[bf0 + n]
      invariant af0 + n <= at && bf0 + n <= bt && Same(a, b, af0, af0 + n, bf0, bf0 + n)
      invariant Front(a, b, af0, at, bf0, bt) == n + Front(a, b, af0 + n, at, bf0 + n, bt)
    {
      assert a[af0..af0 + n + 1] == a[af0..af0 + n] + [a[af0 + n]];
      assert b[bf0..bf0 + n + 1] == b[bf0..bf0 + n] + [b[bf0 + n]];
      n := n + 1;
    }
  }

  method TrimBack(a: Bytes, b: Bytes, af: nat, at0: nat, bf: nat, bt0: nat) returns (n: nat)
    requires af <= at0 <= |a| && bf <= bt0 <= |b|
    ensures n == Back(a, b, af, at0, bf, bt0) && Same(a, b, at0 - n, at0, bt0 - n, bt0)
    ensures af < at0 - n && bf < bt0 - n ==> a[at0 - n - 1] != b[bt0 - n - 1]
  {
    n := 0;
    while af < at0 - n && bf < bt0 - n && a[at0 - n - 1] == b[bt0 - n - 1]
      invariant af <= at0 - n && bf <= bt0 - n && Same(a, b, at0 - n, at0, bt0 - n, bt0)
      invariant Back(a, b, af, at0, bf, bt0) == n + Back(a, b, af, at0 - n, bf, bt0 - n)
    {
      var i, j := at0 - n - 1, bt0 - n - 1;
      assert a[i..at0] == [a[i]] + a[i + 1..at0] && b[j..bt0] == [b[j]] + b[j + 1..bt0];
      n := n + 1;
    }
  }

  /** Trim the bytes both sides of a hunk start and end with. */
  method Refine(a: Bytes, b: Bytes, af0: nat, at0: nat, bf0: nat, bt0: nat) returns (af: nat, at: nat, bf: nat, bt: nat)
    requires af0 <= at0 <= |a| && bf0 <= bt0 <= |b|
    ensures af <= at && bf <= bt
    ensures Same(a, b, af0, af, bf0, bf) && Same(a, b, at, at0, bt, bt0)
    ensures af < at && bf < bt ==> a[af] != b[bf] && a[at - 1] != b[bt - 1]
    ensures Trimmed(a, b, af0, at0, bf0, bt0) == if af == at && bf == bt then [] else [Edit(af, at, b[bf..bt])]
  {
    hide Front, Back, Same;
    var f := TrimFront(a, b, af0, at0, bf0, bt0);
    af, bf := af0 + f, bf0 + f;
    var k := TrimBack(a, b, af, at0, bf, bt0);
    at, bt := at0 - k, bt0 - k;
  }

  /** Every edit changes something, and shared bytes separate it from the next. */
  ghost predicate Distinct(edits: seq<Edit>) {
    && (forall i | 0 <= i < |edits| :: edits[i].from < edits[i].to || edits[i].replacement != [])
    && (forall i | 1 <= i < |edits| :: edits[i - 1].to < edits[i].from)
  }

  function LastEnd(edits: seq<Edit>): nat {
    if edits == [] then 0 else edits[|edits| - 1].to
  }

  /** Edits that splice `a` into `b`, ascending, each of them a change and no two of them adjacent. */
  method ByteDiff(a: Bytes, b: Bytes) returns (edits: seq<Edit>)
    ensures Ascending(edits, 0, |a|) && Splice(a, edits) == b && Distinct(edits)
    ensures edits == LineEdits(a, b)
  {
    var al := SplitIntoLines(a);
    var bl := SplitIntoLines(b);
    var aOff := LineOffsets(al);
    var bOff := LineOffsets(bl);
    var hunks := DiffSeq(al, bl, MAX_LINE_D);
    DiffIsScript(al, bl, MAX_LINE_D);
    hide SplitLines, Concat, DiffHunks, Same, Turns, EditFor;
    NothingTurned(a, b);
    edits := [];
    var i := 0;
    while i < |hunks|
      invariant i <= |hunks| && Distinct(edits) && (i == 0 ==> edits == [])
      invariant EndA(hunks, i) <= |al| && EndB(hunks, i) <= |bl|
      invariant LastEnd(edits) <= Offset(al, EndA(hunks, i))
      invariant Turns(a, b, edits, Offset(al, EndA(hunks, i)), Offset(bl, EndB(hunks, i)))
      invariant edits == EditsFor(a, b, hunks, i)
    {
      var h := hunks[i];
      edits := EditOfHunk(a, b, hunks, i, aOff, bOff, edits);
      i := i + 1;
    }
    AllTurned(a, b, hunks, edits);
  }

  lemma NothingTurned(a: Bytes, b: Bytes)
    ensures Turns(a, b, [], Offset(SplitLines(a), 0), Offset(SplitLines(b), 0))
  {
    assert a[..0] == b[..0] == [];
  }

  lemma AllTurned(a: Bytes, b: Bytes, hunks: seq<Hunk>, edits: seq<Edit>)
    requires Script(SplitLines(a), SplitLines(b), hunks)
    requires EndA(hunks, |hunks|) <= |SplitLines(a)| && EndB(hunks, |hunks|) <= |SplitLines(b)|
    requires Turns(a, b, edits, Offset(SplitLines(a), EndA(hunks, |hunks|)),
      Offset(SplitLines(b), EndB(hunks, |hunks|)))
    ensures Ascending(edits, 0, |a|) && Splice(a, edits) == b
  {
    var al, bl := SplitLines(a), SplitLines(b);
    SameLinesSameBytes(a, b, EndA(hunks, |hunks|), |al|, EndB(hunks, |hunks|), |bl|);
    TurnsMore(a, b, edits, Offset(al, EndA(hunks, |hunks|)), Offset(bl, EndB(hunks, |hunks|)), Offset(al, |al|),
      Offset(bl, |bl|));
    SplitJoins(a);
    SplitJoins(b);
    assert al[..|al|] == al && bl[..|bl|] == bl;
    assert a[..|a|] == a && b[..|b|] == b;
  }

  method EditOfHunk(a: Bytes, b: Bytes, hunks: seq<Hunk>, i: nat, aOff: seq<nat>, bOff: seq<nat>, edits: seq<Edit>)
      returns (edits': seq<Edit>)
    requires AllFollow(SplitLines(a), SplitLines(b), hunks) && i < |hunks|
    requires AreOffsets(SplitLines(a), aOff) && AreOffsets(SplitLines(b), bOff)
    requires EndA(hunks, i) <= |SplitLines(a)| && EndB(hunks, i) <= |SplitLines(b)|
    requires Turns(a, b, edits, Offset(SplitLines(a), EndA(hunks, i)), Offset(SplitLines(b), EndB(hunks, i)))
    requires Distinct(edits) && (i == 0 ==> edits == []) && LastEnd(edits) <= Offset(SplitLines(a), EndA(hunks, i))
    ensures Distinct(edits')
    ensures EndA(hunks, i + 1) <= |SplitLines(a)| && EndB(hunks, i + 1) <= |SplitLines(b)|
    ensures LastEnd(edits') <= Offset(SplitLines(a), EndA(hunks, i + 1))
    ensures Turns(a, b, edits', Offset(SplitLines(a), EndA(hunks, i + 1)), Offset(SplitLines(b), EndB(hunks, i + 1)))
    ensures hunks[i].aFrom <= hunks[i].aTo <= |SplitLines(a)| && hunks[i].bFrom <= hunks[i].bTo <= |SplitLines(b)|
    ensures edits' == edits + EditFor(a, b, hunks[i])
  {
    hide SplitLines, Concat, Turns, Trimmed;
    assert Follows(SplitLines(a), SplitLines(b), hunks, i);
    var h := hunks[i];
    var af0, at0, bf0, bt0 := aOff[h.aFrom], aOff[h.aTo], bOff[h.bFrom], bOff[h.bTo];
    OffsetsOrdered(a, h.aFrom, h.aTo);
    OffsetsOrdered(b, h.bFrom, h.bTo);
    if i > 0 {
      OffsetsStrict(a, EndA(hunks, i), h.aFrom);
    }
    SameLinesSameBytes(a, b, EndA(hunks, i), h.aFrom, EndB(hunks, i), h.bFrom);
    TurnsMore(a, b, edits, Offset(SplitLines(a), EndA(hunks, i)), Offset(SplitLines(b), EndB(hunks, i)), af0, bf0);
    var af, at, bf, bt := Refine(a, b, af0, at0, bf0, bt0);
    TurnsMore(a, b, edits, af0, bf0, af, bf);
    if af == at && bf == bt {
      edits' := edits;
    } else {
      TurnsSnoc(a, b, edits, af, bf, at, bt);
      edits' := edits + [Edit(af, at, b[bf..bt])];
    }
    TurnsMore(a, b, edits', at, bt, at0, bt0);
  }

  lemma OffsetsOrdered(t: Bytes, i: nat, j: nat)
    requires i <= j <= |SplitLines(t)|
    ensures Offset(SplitLines(t), i) <= Offset(SplitLines(t), j) <= |t|
  {
    SplitJoins(t);
    ConcatThree(SplitLines(t), i, j);
  }

  /** No line is empty. */
  lemma OffsetsStrict(t: Bytes, i: nat, j: nat)
    requires i < j <= |SplitLines(t)|
    ensures Offset(SplitLines(t), i) < Offset(SplitLines(t), j)
  {
    var ls := SplitLines(t);
    SplitJoins(t);
    assert ls[..i + 1] == ls[..i] + [ls[i]];
    ConcatAppend(ls[..i], [ls[i]]);
    ConcatOne(ls[i]);
    assert ls[i] != [];
    OffsetsOrdered(t, i + 1, j);
  }
}
