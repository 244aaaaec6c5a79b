/** What a sync leaves of a path, said of what was there before: a change on one side reaches the other. */
module Outcomes {
  import opened Text
  import opened Merging
  import opened ThreeWay
  import opened MergeRules
  import opened Markers
  import opened Reconciling
  import opened Syncing

  /** What is left of a path. */
  ghost function Left(c: Cell, k: Known): Cell {
    DecidedApplies(c, k);
    Settle(c, Decide(c, k))
  }

  /** The document is the recorded one: by its version, or by its text where it was made again or no version
      is on record. */
  predicate DocStays(c: Cell, k: Known) {
    && c.doc.Some? && c.row.Some?
    && (c.row.value.version == Some(c.doc.value.version) || c.row.value.version.None?)
    && (k.remade || c.row.value.version.None? ==> c.doc.value.text == c.row.value.text)
  }

  predicate FileStays(c: Cell) {
    c.file.Some? && c.row.Some? && c.file.value == c.row.value.text
  }

  /** A file with a conflict that is not resolved, or that was deleted. */
  ghost predicate InConflict(c: Cell) {
    c.row.Some? && c.row.value.conflict && (c.file.None? || HasMarkers(c.file.value))
  }

  /** Both as `text`, at a version, on record. */
  function InStepAt(version: nat, text: Bytes): Cell {
    Cell(Some(Doc(version, text)), Some(text), Some(Row(Some(version), text, false)))
  }

  // ----- one side changed -----

  /** A document that changed or went takes its file with it. */
  lemma {:induction false} DocReachesFile(c: Cell, k: Known)
    requires FileStays(c) && !DocStays(c, k) && !InConflict(c)
    ensures Left(c, k) ==
      if c.doc.Some? then InStepAt(c.doc.value.version, c.doc.value.text) else Cell(None, None, None)
  {
    hide HasMarkers, MergedText, MergeConflicts;
  }

  /** A file that changed or went takes its document with it: to a new version, or away. */
  lemma {:induction false} FileReachesDoc(c: Cell, k: Known)
    requires DocStays(c, k) && !FileStays(c) && !InConflict(c)
    ensures Left(c, k) ==
      if c.file.None? then Cell(None, None, None)
      else if c.file.value == c.doc.value.text then InStepAt(c.doc.value.version, c.file.value)
      else InStepAt(c.doc.value.version + 1, c.file.value)
  {
    hide HasMarkers, MergedText, MergeConflicts;
  }

  /** Where neither changed, nothing does but the record of the version. */
  lemma {:induction false} NeitherChanged(c: Cell, k: Known)
    requires DocStays(c, k) && FileStays(c) && !InConflict(c)
    ensures Left(c, k) == Cell(c.doc, c.file, Some(Row(Some(c.doc.value.version), c.file.value, false)))
  {
    hide HasMarkers, MergedText, MergeConflicts;
  }

  // ----- both did -----

  /** What changed on one side and went on the other is kept; what went on both is forgotten. */
  lemma {:induction false} ChangedAndGone(c: Cell, k: Known)
    requires c.row.Some? && !DocStays(c, k) && !FileStays(c) && !InConflict(c) && (c.doc.None? || c.file.None?)
    ensures Left(c, k) ==
      if c.doc.Some? then InStepAt(c.doc.value.version, c.doc.value.text)
      else if c.file.Some? then InStepAt(1, c.file.value)
      else Cell(None, None, None)
  {
    hide HasMarkers, MergedText, MergeConflicts;
  }

  /** The merge of the two, against the recorded text where it is to be had. */
  ghost predicate MergesTo(c: Cell, k: Known, m: Merge)
    requires c.row.Some? && c.doc.Some? && c.file.Some?
  {
    var base := if c.row.value.version.Some? && k.kept then c.row.value.text else [];
    m == Diff3(base, c.doc.value.text, c.file.value)
  }

  /** Two changes are merged into both; or, where they conflict, into the file, with marks, and the document
      stays as it was. */
  lemma {:induction false} BothChanged(c: Cell, k: Known, m: Merge)
    requires c.row.Some? && c.doc.Some? && c.file.Some? && MergesTo(c, k, m)
    requires !DocStays(c, k) && !FileStays(c) && !InConflict(c)
    ensures var d, r := c.doc.value, Left(c, k);
      if d.text == c.file.value then r == InStepAt(d.version, d.text)
      else if m.Clean? then r == InStepAt(if m.text == d.text then d.version else d.version + 1, m.text)
      else
        && r.doc == c.doc && r.row == Some(Row(Some(d.version), d.text, true))
        && r.file.Some? && HasMarkers(r.file.value)
  {
    hide HasMarkers, MergedText, MergeConflicts, Diff3;
    MergeFacts(BaseOf(c, k), c.doc.value.text, c.file.value);
  }

  lemma {:induction false} MergeFacts(base: Bytes, doc: Bytes, file: Bytes)
    ensures Diff3(base, doc, file).Clean? <==> MergeConflicts(base, doc, file) == 0
    ensures Diff3(base, doc, file).Clean? ==> Diff3(base, doc, file).text == MergedText(base, doc, file)
    ensures Diff3(base, doc, file).Conflict? ==> HasMarkers(MergedText(base, doc, file))
  {
    hide ShownAll, HasMarkers, Conflicts, AlignedPieces, Settled;
    SettledShown(AlignedPieces(base, doc, file), LABELS, Eol(doc, file));
    if MergeConflicts(base, doc, file) > 0 {
      ConflictsAreMarked(base, doc, file, LABELS);
    }
  }

  // ----- conflicts -----

  /** Nothing is done about a file that still has the signs of a conflict in it. */
  lemma {:induction false} ConflictStays(c: Cell, k: Known)
    requires c.row.Some? && c.row.value.conflict && c.file.Some? && HasMarkers(c.file.value)
    ensures Left(c, k) == c
  {
    hide HasMarkers, MergedText, MergeConflicts;
  }

  /** One that was deleted comes back as the document has it, or is forgotten with it. */
  lemma {:induction false} ConflictDeleted(c: Cell, k: Known)
    requires c.row.Some? && c.row.value.conflict && c.file.None?
    ensures Left(c, k) ==
      if c.doc.Some? then InStepAt(c.doc.value.version, c.doc.value.text) else Cell(None, None, None)
  {
    hide HasMarkers, MergedText, MergeConflicts;
  }

  // ----- paths that no sync has seen -----

  lemma {:induction false} NewOnOneSide(c: Cell, k: Known)
    requires c.row.None? && (c.doc.None? || c.file.None?)
    ensures Left(c, k) ==
      if c.doc.Some? then InStepAt(c.doc.value.version, c.doc.value.text)
      else if c.file.Some? && k.eligible then InStepAt(1, c.file.value)
      else c
  {
    hide HasMarkers, MergedText, MergeConflicts;
  }

  lemma {:induction false} NewOnBoth(c: Cell, k: Known)
    requires c.row.None? && c.doc.Some? && c.file.Some?
    ensures var d := c.doc.value;
      Left(c, k) == if d.text == c.file.value then InStepAt(d.version, d.text)
        else Cell(c.doc, Some(MergedText([], d.text, c.file.value)), Some(Row(Some(d.version), d.text, true)))
  {
    hide HasMarkers, MergedText, MergeConflicts;
  }

  /** Two texts that no sync has seen are written as one conflict, under the names of the two sides. */
  lemma {:induction false} UnseenIsMarked(doc: Bytes, file: Bytes) returns (d: Bytes, f: Bytes, eol: Bytes)
    requires doc != [] && file != [] && doc != file
    ensures Finished(doc, eol, d) && Finished(file, eol, f) && eol == Eol(doc, file)
    ensures MergedText([], doc, file) ==
      [60, 60, 60, 60, 60, 60, 60, 32] + [116, 101, 120, 116, 100, 98] + eol + d + [61, 61, 61, 61, 61, 61, 61] + eol
        + f + [62, 62, 62, 62, 62, 62, 62, 32] + [100, 105, 115, 107] + eol
  {
    hide Marked, Eol, AlignedPieces, Finished;
    eol := Eol(doc, file);
    var p := Piece([], doc, file);
    d, f := MarkedIs(p, LABELS, eol);
    UnseenPieces(doc, file);
    var u, none: seq<Piece> := Untouched([]), [];
    assert [u, p, u][1..] == [p, u] && [p, u][1..] == [u] && [u][1..] == none;
    assert ShownAll(none, LABELS, eol) == [] && ShownAll([u], LABELS, eol) == [];
    assert ShownAll([p, u], LABELS, eol) == Marked(p, LABELS, eol) + [];
    assert ShownAll([u, p, u], LABELS, eol) == [] + (Marked(p, LABELS, eol) + []);
    assert [] + (Marked(p, LABELS, eol) + []) == Marked(p, LABELS, eol);
  }

  // ----- whole directories -----

  /** A path that no document leaves or comes to is left as it is alone. */
  lemma {:induction false} SyncedIs(v: Vault, known: Knowing, moves: seq<Move>, v': Vault, p: Path)
    requires Synced(v, known, moves, v') && !Leaves(moves, p) && !Arrives(moves, p)
    ensures v'.At(p) == Left(v.At(p), known(p))
  {
  }

  /** In a whole sync a change of the one side of a path, as long as it does not move, reaches the other. */
  lemma {:induction false} OneSideReaches(v: Vault, known: Knowing, moves: seq<Move>, v': Vault, p: Path)
    requires Synced(v, known, moves, v') && !Leaves(moves, p) && !Arrives(moves, p) && !InConflict(v.At(p))
    ensures var c, c', k := v.At(p), v'.At(p), known(p);
      && (FileStays(c) && !DocStays(c, k) ==>
           c'.doc == c.doc && c'.file == if p in v.store then Some(v.store[p].text) else None)
      && (DocStays(c, k) && !FileStays(c) ==>
           c'.file == c.file && (c'.doc.Some? <==> p in v.disk) && (p in v.disk ==> c'.doc.value.text == v.disk[p]))
  {
    hide Decide, Settle, HasMarkers;
    SyncedIs(v, known, moves, v', p);
    var c, k := v.At(p), known(p);
    if FileStays(c) && !DocStays(c, k) {
      DocReachesFile(c, k);
    }
    if DocStays(c, k) && !FileStays(c) {
      FileReachesDoc(c, k);
    }
  }

  /** The document of a path whose file is gone, and a new file elsewhere. */
  ghost predicate FileGone(v: Vault, known: Knowing, p: Path) {
    p !in v.disk && DocStays(v.At(p), known(p)) && !v.base[p].conflict
  }

  ghost predicate NewFile(v: Vault, known: Knowing, p: Path, text: Bytes) {
    p in v.disk && v.disk[p] == text && p !in v.store && p !in v.base && known(p).eligible
  }

  lemma {:induction false} GoneIff(v: Vault, known: Knowing, p: Path)
    ensures ActionAt(v, known, p).DeleteDoc? && p in v.base <==> FileGone(v, known, p)
  {
    hide HasMarkers, MergedText, MergeConflicts;
  }

  lemma {:induction false} NewIff(v: Vault, known: Knowing, p: Path, text: Bytes)
    ensures ActionAt(v, known, p).TakeIn? && v.At(p).file == Some(text) <==> NewFile(v, known, p, text)
  {
    hide HasMarkers, MergedText, MergeConflicts;
  }

  /** There is one new file with the recorded text of the path. */
  ghost predicate GoesTo(v: Vault, known: Knowing, all: seq<Path>, p: Path, q: Path) {
    && FileGone(v, known, p) && q in all && NewFile(v, known, q, v.base[p].text)
    && forall r | r in all && NewFile(v, known, r, v.base[p].text) :: r == q
  }

  lemma {:induction false} OneNew(v: Vault, known: Knowing, paths: seq<Path>, text: Bytes)
    requires EachOnce(paths)
    ensures var found := TakenInWith(v, known, paths, text);
      && EachOnce(found) && forall q :: q in found <==> q in paths && NewFile(v, known, q, text)
    decreases |paths|
  {
    hide Decide, NewFile;
    if paths != [] {
      var p, rest := paths[0], paths[1..];
      assert paths == [p] + rest && EachOnce(rest) && p !in rest;
      OneNew(v, known, rest, text);
      NewIff(v, known, p, text);
    }
  }

  lemma SingleIff(found: seq<Path>, q: Path)
    requires EachOnce(found)
    ensures found == [q] <==> q in found && forall r | r in found :: r == q
  {
    if |found| > 1 {
      FirstTwo(found);
    }
  }

  lemma FirstTwo(found: seq<Path>)
    requires EachOnce(found) && |found| > 1
    ensures found[0] in found && found[1] in found && found[0] != found[1]
  {
  }

  lemma {:induction false} MoveToIff(v: Vault, known: Knowing, all: seq<Path>, p: Path, taken: set<Path>, q: Path)
    requires EachOnce(all)
    ensures MoveTo(v, known, all, p, taken) == Some(q) <==> GoesTo(v, known, all, p, q) && q !in taken
  {
    hide ActionAt, TakenInWith, NewFile;
    GoneIff(v, known, p);
    if FileGone(v, known, p) {
      OneNew(v, known, all, v.base[p].text);
      SingleIff(TakenInWith(v, known, all, v.base[p].text), q);
    }
  }

  /** Of the paths `paths`, this one is the first whose document goes to `q`. */
  ghost predicate FirstTo(v: Vault, known: Knowing, all: seq<Path>, paths: seq<Path>, i: nat, q: Path)
    requires i < |paths|
  {
    GoesTo(v, known, all, paths[i], q) && forall j | 0 <= j < i :: !GoesTo(v, known, all, paths[j], q)
  }

  lemma {:induction false} MovesIff(v: Vault, known: Knowing, all: seq<Path>, paths: seq<Path>, taken: set<Path>,
      m: Move)
    requires EachOnce(all)
    ensures m in MovesFrom(v, known, all, paths, taken) <==>
      m.to !in taken && exists i: nat | i < |paths| :: paths[i] == m.from && FirstTo(v, known, all, paths, i, m.to)
    decreases |paths|
  {
    hide MoveTo, GoesTo;
    if paths != [] {
      var p, rest := paths[0], paths[1..];
      var to := MoveTo(v, known, all, p, taken);
      var taken' := if to.None? then taken else taken + {to.value};
      MovesIff(v, known, all, rest, taken', m);
      MoveToIff(v, known, all, p, taken, m.to);
      FirstOfMore(v, known, all, paths, m);
      if to.Some? {
        MoveToIff(v, known, all, p, taken, to.value);
      }
    }
  }

  lemma {:induction false} FirstOfMore(v: Vault, known: Knowing, all: seq<Path>, paths: seq<Path>, m: Move)
    requires paths != []
    ensures (exists i: nat | i < |paths| :: paths[i] == m.from && FirstTo(v, known, all, paths, i, m.to)) <==>
      if GoesTo(v, known, all, paths[0], m.to) then paths[0] == m.from
      else exists i: nat | i < |paths[1..]| :: paths[1..][i] == m.from && FirstTo(v, known, all, paths[1..], i, m.to)
  {
    hide GoesTo;
    var rest := paths[1..];
    assert forall i | 0 <= i < |rest| :: rest[i] == paths[i + 1];
    if i: nat :| i < |paths| && paths[i] == m.from && FirstTo(v, known, all, paths, i, m.to) && i > 0 {
      assert FirstTo(v, known, all, rest, i - 1, m.to);
    }
    if !GoesTo(v, known, all, paths[0], m.to) {
      if i: nat :| i < |rest| && rest[i] == m.from && FirstTo(v, known, all, rest, i, m.to) {
        assert FirstTo(v, known, all, paths, i + 1, m.to);
      }
    } else {
      assert FirstTo(v, known, all, paths, 0, m.to);
    }
  }
}
