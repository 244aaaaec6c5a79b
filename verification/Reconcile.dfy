/** One path of a directory and of the store, against what both held at the last sync: what a sync does
    about it. Text files that may be written on both sides. */
module Reconciling {
  import opened Text
  import opened Chunker
  import opened Lines
  import opened Scripts
  import opened SequenceDiff
  import opened ByteEdits
  import opened Merging
  import opened ThreeWay
  import opened Markers

  /** A document in the store. */
  datatype Doc = Doc(version: nat, text: Bytes)

  /** What the last sync left: the store's version, when it is known, the text, and whether the file was
      left with conflict markers. A content id is modelled by the content. */
  datatype Row = Row(version: Option<nat>, text: Bytes, conflict: bool)

  /** One path: the document, the file and the record. */
  datatype Cell = Cell(doc: Option<Doc>, file: Option<Bytes>, row: Option<Row>)

  /** What is known beside that: the document went away and was made again since the last sync, so its
      versions started over; the text of the last sync is still at hand; a new file here is taken in. */
  datatype Known = Known(remade: bool, kept: bool, eligible: bool)

  datatype Action =
    | Nothing
    | Keep
    | Hold
    | Adopt
    | ToDisk
    | ToStore
    | TakeIn
    | Merge(text: Bytes)
    | Mark(text: Bytes)
    | DeleteDoc
    | DeleteFile

  const LABELS := Labels([116, 101, 120, 116, 100, 98], [100, 105, 115, 107])

  // ----- the decision for a path -----

  /** The merge of the document and the file, conflicts marked. */
  function MergedText(base: Bytes, doc: Bytes, file: Bytes): Bytes {
    ShownAll(AlignedPieces(base, doc, file), LABELS, Eol(doc, file))
  }

  function MergeConflicts(base: Bytes, doc: Bytes, file: Bytes): nat {
    Conflicts(AlignedPieces(base, doc, file))
  }

  /** The text to merge against: that of the last sync, if it is to be had. */
  function BaseOf(c: Cell, k: Known): Bytes {
    if c.row.Some? && c.row.value.version.Some? && k.kept then c.row.value.text else []
  }

  /** By its version, or by its text where that says nothing. */
  predicate DocChanged(c: Cell, k: Known)
    requires c.doc.Some? && c.row.Some?
  {
    var d, r := c.doc.value, c.row.value;
    if r.version == Some(d.version) then k.remade && d.text != r.text
    else r.version.Some? || d.text != r.text
  }

  predicate FileChanged(c: Cell)
    requires c.file.Some? && c.row.Some?
  {
    c.file.value != c.row.value.text
  }

  function MergeAction(c: Cell, base: Bytes): Action
    requires c.doc.Some? && c.file.Some?
  {
    var m := MergedText(base, c.doc.value.text, c.file.value);
    if c.doc.value.text == c.file.value then Adopt
    else if MergeConflicts(base, c.doc.value.text, c.file.value) == 0 then Merge(m)
    else Mark(m)
  }

  function Reconcile(c: Cell, k: Known): Action
    requires c.row.Some?
  {
    if c.doc.Some? && c.file.Some? then
      if FileChanged(c) then
        if DocChanged(c, k) then MergeAction(c, BaseOf(c, k)) else ToStore
      else if DocChanged(c, k) then ToDisk else Keep
    else if c.doc.Some? then
      if DocChanged(c, k) then ToDisk else DeleteDoc
    else if c.file.Some? then
      if FileChanged(c) then ToStore else DeleteFile
    else Nothing
  }

  /** A path that no sync has seen. */
  function Meet(c: Cell, k: Known): Action {
    if c.doc.Some? && c.file.Some? then
      if c.doc.value.text == c.file.value then Adopt else Mark(MergedText([], c.doc.value.text, c.file.value))
    else if c.doc.Some? then ToDisk
    else if c.file.Some? && k.eligible then TakeIn
    else Nothing
  }

  ghost function Decide(c: Cell, k: Known): Action {
    if c.row.None? then Meet(c, k)
    else if c.row.value.conflict && c.file.Some? && HasMarkers(c.file.value) then Hold
    else if c.row.value.conflict && c.file.None? && c.doc.Some? then ToDisk
    else Reconcile(c, k)
  }

  method MergeSides(base: Bytes, doc: Bytes, file: Bytes) returns (text: Bytes, conflicts: nat)
    ensures text == MergedText(base, doc, file) && conflicts == MergeConflicts(base, doc, file)
  {
    var r := Merge3(base, doc, file, Some(LABELS));
    text, conflicts := r.value.0, r.value.1;
  }

  method DecidePath(c: Cell, k: Known) returns (a: Action)
    ensures a == Decide(c, k)
  {
    hide HasMarkers, ShownAll, AlignedPieces, Conflicts;
    if c.row.None? {
      if c.doc.Some? && c.file.Some? && c.doc.value.text != c.file.value {
        var m, _ := MergeSides([], c.doc.value.text, c.file.value);
        return Mark(m);
      }
      return Meet(c, k);
    }
    if c.row.value.conflict {
      if c.file.Some? {
        var marked := FindMarkers(c.file.value);
        if marked {
          return Hold;
        }
      } else if c.doc.Some? {
        return ToDisk;
      }
    }
    if c.doc.Some? && c.file.Some? && DocChanged(c, k) && FileChanged(c) && c.doc.value.text != c.file.value {
      var m, n := MergeSides(BaseOf(c, k), c.doc.value.text, c.file.value);
      return if n == 0 then Merge(m) else Mark(m);
    }
    a := Reconcile(c, k);
  }

  // ----- what an action leaves -----

  /** The action can be carried out on the path. */
  predicate Applies(c: Cell, a: Action) {
    match a
    case Nothing => true
    case DeleteDoc => true
    case DeleteFile => true
    case Keep => c.doc.Some? && c.row.Some?
    case Hold => c.row.Some?
    case Adopt => c.doc.Some?
    case ToDisk => c.doc.Some?
    case ToStore => c.file.Some?
    case TakeIn => c.file.Some?
    case Merge(text) => c.doc.Some?
    case Mark(text) => c.doc.Some?
  }

  /** Writing a text to the store: a new version, unless it is there already. */
  function Written(doc: Option<Doc>, text: Bytes): Doc {
    if doc.None? then Doc(1, text)
    else if doc.value.text == text then doc.value
    else Doc(doc.value.version + 1, text)
  }

  function Settle(c: Cell, a: Action): Cell
    requires Applies(c, a)
  {
    match a
    case Nothing => c.(row := None)
    case Keep => c.(row := Some(Row(Some(c.doc.value.version), c.row.value.text, false)))
    case Hold => c
    case Adopt => c.(row := Some(Row(Some(c.doc.value.version), c.doc.value.text, false)))
    case ToDisk =>
      var d := c.doc.value;
      Cell(c.doc, Some(d.text), Some(Row(Some(d.version), d.text, false)))
    case ToStore => Pushed(c, c.file.value)
    case TakeIn => Pushed(c, c.file.value)
    case Merge(text) => Pushed(c, text)
    case Mark(text) => Cell(c.doc, Some(text), Some(Row(Some(c.doc.value.version), c.doc.value.text, true)))
    case DeleteDoc => Cell(None, c.file, None)
    case DeleteFile => Cell(c.doc, None, None)
  }

  function Pushed(c: Cell, text: Bytes): Cell {
    var d := Written(c.doc, text);
    Cell(Some(d), Some(text), Some(Row(Some(d.version), text, false)))
  }

  lemma DecidedApplies(c: Cell, k: Known)
    ensures Applies(c, Decide(c, k))
  {
    hide HasMarkers, MergedText, MergeConflicts;
  }

  // ----- nothing is lost -----

  /** The file is as the last sync left it. */
  predicate FileAsLeft(c: Cell) {
    c.file.Some? && c.row.Some? && c.row.value.text == c.file.value
  }

  /** The document is, as far as versions tell. */
  predicate DocAsLeft(c: Cell, k: Known) {
    c.doc.Some? && c.row.Some? && !DocChanged(c, k)
  }

  /** The record names the text of the version it names, or the document is known to be another. */
  predicate Tells(c: Cell, k: Known) {
    c.row.Some? && c.doc.Some? && c.row.value.version == Some(c.doc.value.version) && !k.remade ==>
      c.row.value.text == c.doc.value.text
  }

  /** A file that is not as the last sync left it is neither deleted nor overwritten, but by its merge with
      the document. */
  lemma {:induction false} FileSafe(c: Cell, k: Known)
    requires c.file.Some?
    ensures Applies(c, Decide(c, k))
    ensures var c' := Settle(c, Decide(c, k));
      c'.file == c.file || FileAsLeft(c) ||
        (c.doc.Some? && c'.file == Some(MergedText(BaseOf(c, k), c.doc.value.text, c.file.value)))
  {
    hide HasMarkers, MergedText, MergeConflicts;
  }

  /** Nor is a document, but by a merge without conflicts. */
  lemma {:induction false} DocSafe(c: Cell, k: Known)
    requires c.doc.Some?
    ensures Applies(c, Decide(c, k))
    ensures var c' := Settle(c, Decide(c, k));
      || c'.doc == c.doc || DocAsLeft(c, k)
      || (c.file.Some? && MergeConflicts(BaseOf(c, k), c.doc.value.text, c.file.value) == 0
          && c'.doc == Some(Written(c.doc, MergedText(BaseOf(c, k), c.doc.value.text, c.file.value))))
    ensures Tells(c, k) && DocAsLeft(c, k) ==> c.doc.value.text == c.row.value.text
  {
    hide HasMarkers, MergedText, MergeConflicts;
  }

  // ----- the next sync has nothing to do -----

  predicate Quiet(a: Action) {
    a.Nothing? || a.Keep? || a.Hold?
  }

  /** An empty document meets a file that no sync has seen, and that does not look like a conflict: the
      merge against nothing is the file itself, recorded as a conflict. */
  ghost predicate UnmarkedConflict(c: Cell) {
    c.row.None? && c.doc.Some? && c.file.Some? && c.doc.value.text == [] && c.file.value != []
      && !HasMarkers(c.file.value)
  }

  lemma NothingHunks(ls: seq<Bytes>)
    requires ls != []
    ensures DiffHunks([], ls, MAX_LINE_D) == [Hunk(0, 0, 0, |ls|)]
  {
    var none: seq<Bytes> := [];
    assert SharedPrefix(none, ls, 0) == 0 && SharedSuffix(none, ls, 0, 0) == 0;
    assert none[0..0] == none && ls[0..|ls|] == ls;
    assert CoreHunks(none, ls, MAX_LINE_D) == [Hunk(0, 0, 0, |ls|)];
  }

  lemma {:induction false} NothingRegion(s: Sides, i: nat, j: nat)
    requires s.ho == [Hunk(0, 0, 0, i)] && s.ht == [Hunk(0, 0, 0, j)]
    ensures NextRegion(s, 0, 0) == Region(0, 0, 1, 1)
  {
    assert Absorb(s.ho, s.ht, 0, 1, 1, 0) == (1, 1, 0);
    assert Absorb(s.ho, s.ht, 0, 1, 0, 0) == (1, 1, 0);
  }

  /** Against nothing, the two texts are one piece. */
  lemma {:induction false} NothingPiece(s: Sides)
    requires s.base == [] && s.ho == [Hunk(0, 0, 0, |s.ours|)] && s.ht == [Hunk(0, 0, 0, |s.theirs|)]
    requires s.Valid() && At(s, 1, 1, 0) && Between(s.base, s.ho, 0, 0) && Between(s.base, s.ht, 0, 0)
    ensures RegionPiece(s, 0, 0, Region(0, 0, 1, 1)) == Piece([], Concat(s.ours), Concat(s.theirs))
  {
    var none: seq<Bytes> := [];
    assert s.base[0..0] == none && Concat(none) == [];
    assert Side(s.base, s.ours, s.ho, 1, 1, 0, 0) == none && Side(s.base, s.theirs, s.ht, 1, 1, 0, 0) == none;
    assert Side(s.base, s.ours, s.ho, 0, 1, 0, 0) == none + s.ours[0..|s.ours|] + none == s.ours;
    assert Side(s.base, s.theirs, s.ht, 0, 1, 0, 0) == none + s.theirs[0..|s.theirs|] + none == s.theirs;
  }

  lemma {:induction false} UnseenPieces(doc: Bytes, file: Bytes)
    requires doc != [] && file != []
    ensures AlignedPieces([], doc, file) == [Untouched([]), Piece([], doc, file), Untouched([])]
  {
    hide DiffHunks, SplitLines, RegionPiece, NextRegion;
    SplitJoins(doc);
    SplitJoins(file);
    SomeLines(doc);
    SomeLines(file);
    NothingHunks(SplitLines(doc));
    NothingHunks(SplitLines(file));
    var s := SidesOf([], doc, file);
    NoLinesOfNothing();
    NothingRegion(s, |s.ours|, |s.theirs|);
    RegionFollows(s, 0, 0, 0);
    NothingPiece(s);
    assert s.base[0..0] == [] && s.base[0..] == [] && Concat([]) == [];
    assert Pieces(s, 1, 1, 0) == [Untouched([])];
  }

  lemma {:induction false} OneConflict(doc: Bytes, file: Bytes)
    requires doc != [] && file != [] && doc != file
    ensures MergeConflicts([], doc, file) > 0
  {
    hide AlignedPieces;
    UnseenPieces(doc, file);
    var u, p := Untouched([]), Piece([], doc, file);
    assert [u, p] + [u] == [u, p, u];
    TwoConflicts(u, p, [u]);
  }

  lemma NoLinesOfNothing()
    ensures SplitLines([]) == []
  {
  }

  lemma SomeLines(t: Bytes)
    requires t != []
    ensures SplitLines(t) != []
  {
  }

  /** Two texts merged against nothing, each with something in it, are one conflict. */
  lemma {:induction false} MergeOfNothing(doc: Bytes, file: Bytes)
    requires doc != file
    ensures if doc == [] then MergedText([], doc, file) == file
      else if file == [] then MergedText([], doc, file) == doc
      else MergeConflicts([], doc, file) > 0
  {
    hide Pieces, ShownAll, Conflicts;
    if doc == [] {
      UnchangedOursGivesTheirs([], file);
      CleanIffNothingMarked([], doc, file, LABELS, file);
    } else if file == [] {
      UnchangedTheirsGivesOurs([], doc);
      CleanIffNothingMarked([], doc, file, LABELS, doc);
    } else {
      OneConflict(doc, file);
    }
  }

  /** The same path at the next sync, nothing having happened to the store in between. */
  function NextKnown(k: Known, kept: bool): Known {
    Known(false, kept, k.eligible)
  }

  /** What a conflict leaves is marked, or is the document, or is the file that met an empty one. */
  lemma {:induction false} MarkLeaves(c: Cell, k: Known, m: Bytes)
    requires Decide(c, k) == Mark(m)
    ensures c.doc.Some? && c.file.Some?
    ensures UnmarkedConflict(c) ==> m == c.file.value
    ensures !UnmarkedConflict(c) ==> HasMarkers(m) || m == c.doc.value.text
  {
    hide HasMarkers, ShownAll, AlignedPieces, Conflicts;
    var doc, file := c.doc.value.text, c.file.value;
    if c.row.None? {
      MergeOfNothing(doc, file);
      if MergeConflicts([], doc, file) > 0 {
        ConflictsAreMarked([], doc, file, LABELS);
      }
    } else {
      ConflictsAreMarked(BaseOf(c, k), doc, file, LABELS);
    }
  }

  /** After a sync the path is quiet, but for the one kind of conflict that is not marked as one. */
  lemma {:induction false} CellSettles(c: Cell, k: Known, kept: bool)
    ensures Applies(c, Decide(c, k))
    ensures var c', k' := Settle(c, Decide(c, k)), NextKnown(k, kept);
      && !UnmarkedConflict(c')
      && (if UnmarkedConflict(c) then Decide(c', k') == ToStore else Quiet(Decide(c', k')))
  {
    hide HasMarkers, MergedText, MergeConflicts;
    var a := Decide(c, k);
    if a.Mark? {
      MarkSettles(c, k, kept);
    } else {
      OtherSettles(c, k, kept);
    }
  }

  lemma {:induction false} MarkSettles(c: Cell, k: Known, kept: bool)
    requires Decide(c, k).Mark?
    ensures Applies(c, Decide(c, k))
    ensures var c', k' := Settle(c, Decide(c, k)), NextKnown(k, kept);
      && !UnmarkedConflict(c')
      && (if UnmarkedConflict(c) then Decide(c', k') == ToStore else Quiet(Decide(c', k')))
  {
    hide Decide, HasMarkers;
    var m := Decide(c, k).text;
    MarkLeaves(c, k, m);
    MarkedNext(c.doc.value, m, NextKnown(k, kept));
  }

  /** A file left with a conflict is held while it is marked, and goes to the store when it is not. */
  lemma {:induction false} MarkedNext(d: Doc, m: Bytes, k: Known)
    requires !k.remade
    ensures var c := Cell(Some(d), Some(m), Some(Row(Some(d.version), d.text, true)));
      && !UnmarkedConflict(c)
      && Decide(c, k) == if HasMarkers(m) then Hold else if m == d.text then Keep else ToStore
  {
    hide HasMarkers, MergedText, MergeConflicts;
  }

  lemma {:induction false} OtherSettles(c: Cell, k: Known, kept: bool)
    requires !Decide(c, k).Mark?
    ensures !UnmarkedConflict(c) && Applies(c, Decide(c, k))
    ensures var c', k' := Settle(c, Decide(c, k)), NextKnown(k, kept);
      !UnmarkedConflict(c') && Quiet(Decide(c', k'))
  {
    hide HasMarkers, MergedText, MergeConflicts;
    var a, k' := Decide(c, k), NextKnown(k, kept);
    var c' := Settle(c, a);
    if a.ToDisk? || a.ToStore? || a.TakeIn? || a.Merge? || a.Adopt? {
      var d := c'.doc.value;
      assert c' == Cell(Some(d), Some(d.text), Some(Row(Some(d.version), d.text, false)));
      hide Decide, Quiet;
      InStep(d, k');
    }
  }

  /** With the record, the document and the file the same, there is nothing to do. */
  lemma {:induction false} InStep(d: Doc, k: Known)
    requires !k.remade
    ensures var c := Cell(Some(d), Some(d.text), Some(Row(Some(d.version), d.text, false)));
      Decide(c, k) == Keep && !UnmarkedConflict(c) && Quiet(Keep)
  {
  }

  /** An empty document and a file that no sync has seen: the first sync calls it a conflict and leaves the
      file as it is, and the second takes it to the store. */
  lemma {:induction false} EmptyMeetsFile(file: Bytes)
    requires file != [] && !HasMarkers(file)
    ensures var c, k := Cell(Some(Doc(1, [])), Some(file), None), Known(false, true, true);
      var c' := Cell(Some(Doc(1, [])), Some(file), Some(Row(Some(1), [], true)));
      && Settle(c, Mark(file)) == c' && UnmarkedConflict(c) && Decide(c, k) == Mark(file)
      && Decide(c', k) == ToStore
  {
    hide HasMarkers, MergedText, MergeConflicts;
    MergeOfNothing([], file);
  }
}
