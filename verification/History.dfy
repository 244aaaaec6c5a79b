/** Syncs over time: what happens to the store and on disk between them, and when a document that no sync
    has read is lost. */
module Histories {
  import opened Text
  import opened Markers
  import opened Reconciling
  import opened Syncing

  /** A path, and whether its document went away since the last sync. */
  datatype World = World(cell: Cell, gone: bool)

  /** What happens to a path: a commit, which starts a document that is not there at version 1; a deletion
      or a move away; a document moved here or restored, of any version; any change of the file; a sync. */
  datatype Step =
    | Write(text: Bytes)
    | Remove
    | Bring(doc: Doc)
    | Touch(file: Option<Bytes>)
    | Sync(kept: bool, eligible: bool)

  function KnownAt(w: World, kept: bool, eligible: bool): Known {
    Known(w.gone, kept, eligible)
  }

  /** The path after a step; a sync has seen whatever went away before it. */
  ghost function After(w: World, s: Step): World {
    var c := w.cell;
    match s
    case Write(text) => World(c.(doc := Some(Written(c.doc, text))), w.gone)
    case Remove => World(c.(doc := None), true)
    case Bring(d) => World(if c.doc.None? then c.(doc := Some(d)) else c, w.gone)
    case Touch(file) => World(c.(file := file), w.gone)
    case Sync(kept, eligible) =>
      var k := KnownAt(w, kept, eligible);
      DecidedApplies(c, k);
      World(Settle(c, Decide(c, k)), false)
  }

  /** A sync now changes or removes the document, though its text is not what the last sync left, and not
      to merge it. */
  ghost predicate Loses(w: World, kept: bool, eligible: bool) {
    var c, a := w.cell, Decide(w.cell, KnownAt(w, kept, eligible));
    && c.doc.Some? && After(w, Sync(kept, eligible)).cell.doc != c.doc && !a.Merge?
    && !(c.row.Some? && c.row.value.text == c.doc.value.text)
  }

  /** A sync now holds the path with a version in its record, although the document went away. */
  ghost predicate Forgets(w: World) {
    && w.gone && w.cell.row.Some? && w.cell.row.value.version.Some? && w.cell.row.value.conflict
    && w.cell.file.Some? && HasMarkers(w.cell.file.value)
  }

  ghost predicate Careful(w: World, steps: seq<Step>)
    decreases |steps|
  {
    steps != [] ==> !(steps[0].Sync? && Forgets(w)) && Careful(After(w, steps[0]), steps[1..])
  }

  ghost predicate Lossless(w: World, steps: seq<Step>)
    decreases |steps|
  {
    steps != [] ==>
      && !(steps[0].Sync? && Loses(w, steps[0].kept, steps[0].eligible))
      && Lossless(After(w, steps[0]), steps[1..])
  }

  // ----- as long as no sync forgets, none loses -----

  /** Unless its document is known to have gone, a record with a version is of the document there is: that
      has the recorded text, or a later version. */
  predicate Traced(w: World) {
    w.cell.row.Some? && w.cell.row.value.version.Some? && !w.gone ==> w.cell.doc.Some? && Reaches(w)
  }

  predicate Reaches(w: World)
    requires w.cell.row.Some? && w.cell.row.value.version.Some? && w.cell.doc.Some?
  {
    var d, r := w.cell.doc.value, w.cell.row.value;
    d.version > r.version.value || d == Doc(r.version.value, r.text)
  }

  lemma {:induction false} TracedKept(w: World, s: Step)
    requires Traced(w) && !(s.Sync? && Forgets(w))
    ensures Traced(After(w, s))
  {
    hide HasMarkers, MergedText, MergeConflicts;
  }

  lemma {:induction false} TracedLoses(w: World, kept: bool, eligible: bool)
    requires Traced(w)
    ensures !Loses(w, kept, eligible)
  {
    hide HasMarkers, MergedText, MergeConflicts;
  }

  lemma {:induction false} TracedIsLossless(w: World, steps: seq<Step>)
    requires Traced(w) && Careful(w, steps)
    ensures Lossless(w, steps)
    decreases |steps|
  {
    hide Traced, After, Loses, Forgets;
    if steps != [] {
      TracedKept(w, steps[0]);
      if steps[0].Sync? {
        TracedLoses(w, steps[0].kept, steps[0].eligible);
      }
      TracedIsLossless(After(w, steps[0]), steps[1..]);
    }
  }

  // ----- and where the record is of another document, some series loses one -----

  /** Versions start at 1. */
  predicate Numbered(w: World) {
    w.cell.row.Some? && w.cell.row.value.version.Some? ==> w.cell.row.value.version.value > 0
  }

  /** A text other than two. */
  function Another(s: Bytes, t: Bytes): (r: Bytes)
    ensures r != s && r != t && |r| <= 1
  {
    if [] != s && [] != t then [] else if [97] != s && [97] != t then [97] else [98]
  }

  lemma ShortIsUnmarked(t: Bytes)
    requires |t| <= 1
    ensures !HasMarkers(t)
  {
  }

  /** Commits bring the document to the recorded version, with another text; then the file is changed. */
  lemma {:induction false} LossAhead(w: World) returns (steps: seq<Step>)
    requires Numbered(w) && !Traced(w)
    ensures Careful(w, steps) && !Lossless(w, steps)
    decreases w.cell.row.value.version.value - if w.cell.doc.Some? then w.cell.doc.value.version else 0
  {
    var c, r := w.cell, w.cell.row.value;
    if c.doc.Some? && c.doc.value.version == r.version.value {
      var file := Another(r.text, c.doc.value.text);
      steps := [Touch(Some(file)), Sync(false, true)];
      ResolvedLoses(w, file);
      TwoSteps(w, steps[0], steps[1]);
    } else {
      var text := Another(r.text, if c.doc.Some? then c.doc.value.text else []);
      var more := LossAhead(After(w, Write(text)));
      steps := [Write(text)] + more;
      assert steps[1..] == more;
    }
  }

  lemma TwoSteps(w: World, s: Step, t: Step)
    ensures Careful(w, [s, t]) <==> !(s.Sync? && Forgets(w)) && !(t.Sync? && Forgets(After(w, s)))
    ensures Lossless(w, [s, t]) <==>
      && !(s.Sync? && Loses(w, s.kept, s.eligible))
      && !(t.Sync? && Loses(After(w, s), t.kept, t.eligible))
  {
    hide Forgets, Loses, After;
    assert [s, t][1..] == [t] && [t][1..] == [];
    assert Careful(After(After(w, s), t), []) && Lossless(After(After(w, s), t), []);
  }

  lemma {:induction false} ResolvedLoses(w: World, file: Bytes)
    requires !w.gone && w.cell.row.Some? && w.cell.doc.Some? && |file| <= 1
    requires w.cell.row.value.version == Some(w.cell.doc.value.version)
    requires w.cell.row.value.text != w.cell.doc.value.text
    requires file != w.cell.row.value.text && file != w.cell.doc.value.text
    ensures !Forgets(After(w, Touch(Some(file)))) && Loses(After(w, Touch(Some(file))), false, true)
  {
    hide HasMarkers, MergedText, MergeConflicts;
    ShortIsUnmarked(file);
  }

  /** A path from which no series of steps loses a document, without a sync that forgets, is one whose
      record is of the document there is. */
  lemma {:induction false} LosslessIff(w: World)
    requires Numbered(w)
    ensures Traced(w) <==> forall steps: seq<Step> | Careful(w, steps) :: Lossless(w, steps)
  {
    hide Traced, Careful, Lossless;
    if Traced(w) {
      forall steps: seq<Step> | Careful(w, steps) ensures Lossless(w, steps) {
        TracedIsLossless(w, steps);
      }
    } else {
      var steps := LossAhead(w);
      assert Careful(w, steps) && !Lossless(w, steps);
    }
  }

  // ----- after a sync that forgets -----

  /** What such a sync leaves is the path as it was, and nothing of the document having gone. Some series
      then loses a document, without another such sync, exactly when the document is not there, or has a
      version before the recorded one, or the recorded one and another text. */
  lemma {:induction false} ForgottenIff(w: World, kept: bool, eligible: bool)
    requires Forgets(w) && Numbered(w)
    ensures var w', d, r := After(w, Sync(kept, eligible)), w.cell.doc, w.cell.row.value;
      && w' == World(w.cell, false)
      && ((exists steps: seq<Step> :: Careful(w', steps) && !Lossless(w', steps)) <==>
           d.None? || d.value.version < r.version.value
             || (d.value.version == r.version.value && d.value.text != r.text))
  {
    hide HasMarkers, MergedText, MergeConflicts, Careful, Lossless;
    LosslessIff(World(w.cell, false));
  }

  ghost function RunTo(w: World, steps: seq<Step>): World
    decreases |steps|
  {
    if steps == [] then w else RunTo(After(w, steps[0]), steps[1..])
  }

  lemma RunOne(w: World, s: Step, steps: seq<Step>)
    ensures RunTo(w, [s] + steps) == RunTo(After(w, s), steps)
  {
    hide After;
    assert ([s] + steps)[1..] == steps;
  }

  /** With a conflict in its file, and `version` and `was` on record, a path holds `doc` or nothing. */
  function Held(doc: Option<Doc>, marked: Bytes, version: nat, was: Bytes): World {
    World(Cell(doc, Some(marked), Some(Row(Some(version), was, true))), true)
  }

  lemma {:induction false} HeldStays(doc: Option<Doc>, marked: Bytes, version: nat, was: Bytes)
    requires HasMarkers(marked)
    ensures var w := Held(doc, marked, version, was);
      Forgets(w) && After(w, Sync(false, true)) == World(w.cell, false)
  {
    hide HasMarkers, MergedText, MergeConflicts;
  }

  lemma {:induction false} ResolvedReplaces(w: World, resolved: Bytes)
    requires !w.gone && w.cell.row.Some? && w.cell.doc.Some? && !HasMarkers(resolved)
    requires w.cell.row.value.version == Some(w.cell.doc.value.version)
    requires w.cell.row.value.text != w.cell.doc.value.text
    requires resolved != w.cell.row.value.text && resolved != w.cell.doc.value.text
    ensures var w' := After(w, Touch(Some(resolved)));
      && Loses(w', false, true)
      && After(w', Sync(false, true)).cell.doc == Some(Doc(w.cell.doc.value.version + 1, resolved))
  {
    hide HasMarkers, MergedText, MergeConflicts;
  }

  /** A document deleted and made again while its file holds a conflict: the file, once resolved, replaces
      the new document, which no sync has read. */
  lemma {:induction false} HeldForgets(marked: Bytes, resolved: Bytes, lost: Bytes, was: Bytes)
    requires HasMarkers(marked) && !HasMarkers(resolved) && lost != was && resolved != was && resolved != lost
    ensures var steps := [Sync(false, true), Touch(Some(resolved))];
      var w := Held(Some(Doc(1, lost)), marked, 1, was);
      && Loses(RunTo(w, steps), false, true)
      && After(RunTo(w, steps), Sync(false, true)).cell.doc == Some(Doc(2, resolved))
  {
    hide After, Loses, HasMarkers;
    var w := Held(Some(Doc(1, lost)), marked, 1, was);
    HeldStays(Some(Doc(1, lost)), marked, 1, was);
    RunOne(w, Sync(false, true), [Touch(Some(resolved))]);
    RunOne(World(w.cell, false), Touch(Some(resolved)), []);
    assert [Sync(false, true)] + [Touch(Some(resolved))] == [Sync(false, true), Touch(Some(resolved))];
    assert [Touch(Some(resolved))] + [] == [Touch(Some(resolved))];
    ResolvedReplaces(World(w.cell, false), resolved);
  }

  /** The same when it is only deleted at first, and made again behind the sync. */
  lemma {:induction false} DeletedForgets(marked: Bytes, resolved: Bytes, lost: Bytes, was: Bytes)
    requires HasMarkers(marked) && !HasMarkers(resolved) && lost != was && resolved != was && resolved != lost
    ensures var steps := [Sync(false, true), Write(lost), Touch(Some(resolved))];
      var w := Held(None, marked, 1, was);
      && Loses(RunTo(w, steps), false, true)
      && After(RunTo(w, steps), Sync(false, true)).cell.doc == Some(Doc(2, resolved))
  {
    var w := Held(None, marked, 1, was);
    HeldStays(None, marked, 1, was);
    WrittenThenResolved(w, lost, resolved, Doc(1, lost));
  }

  /** And when it is made again before, and edited behind it: here no version is the recorded one until then. */
  lemma {:induction false} EditedForgets(marked: Bytes, resolved: Bytes, first: Bytes, lost: Bytes, was: Bytes)
    requires HasMarkers(marked) && !HasMarkers(resolved) && lost != was && resolved != was && resolved != lost
    requires first != lost
    ensures var steps := [Sync(false, true), Write(lost), Touch(Some(resolved))];
      var w := Held(Some(Doc(1, first)), marked, 2, was);
      && Loses(RunTo(w, steps), false, true)
      && After(RunTo(w, steps), Sync(false, true)).cell.doc == Some(Doc(3, resolved))
  {
    var w := Held(Some(Doc(1, first)), marked, 2, was);
    HeldStays(Some(Doc(1, first)), marked, 2, was);
    WrittenThenResolved(w, lost, resolved, Doc(2, lost));
  }

  lemma {:induction false} WrittenThenResolved(w: World, lost: Bytes, resolved: Bytes, d: Doc)
    requires After(w, Sync(false, true)) == World(w.cell, false) && Written(w.cell.doc, lost) == d && d.text == lost
    requires w.cell.row.Some? && w.cell.row.value.version == Some(d.version) && !HasMarkers(resolved)
    requires w.cell.row.value.text != lost && resolved != w.cell.row.value.text && resolved != lost
    ensures var steps := [Sync(false, true), Write(lost), Touch(Some(resolved))];
      && Loses(RunTo(w, steps), false, true)
      && After(RunTo(w, steps), Sync(false, true)).cell.doc == Some(Doc(d.version + 1, resolved))
  {
    hide Loses, HasMarkers, Decide, Settle;
    var w1, w2 := World(w.cell, false), World(w.cell.(doc := Some(d)), false);
    assert After(w1, Write(lost)) == w2;
    RunOne(w, Sync(false, true), [Write(lost), Touch(Some(resolved))]);
    RunOne(w1, Write(lost), [Touch(Some(resolved))]);
    RunOne(w2, Touch(Some(resolved)), []);
    assert [Sync(false, true)] + [Write(lost), Touch(Some(resolved))]
      == [Sync(false, true), Write(lost), Touch(Some(resolved))];
    assert [Write(lost)] + [Touch(Some(resolved))] == [Write(lost), Touch(Some(resolved))];
    assert [Touch(Some(resolved))] + [] == [Touch(Some(resolved))];
    ResolvedReplaces(w2, resolved);
  }

  // ----- whole directories -----

  /** A directory and its store, and the paths whose documents went away since the last sync. */
  datatype Shared = Shared(vault: Vault, gone: set<Path>)
  {
    function At(p: Path): World {
      World(vault.At(p), p in gone)
    }
  }

  /** Something happens to one path, in the store or on disk; a move in the store is two such steps. */
  ghost predicate Outside(t: Shared, t': Shared, p: Path, s: Step) {
    !s.Sync? && t'.At(p) == After(t.At(p), s) && forall q | q != p :: t'.At(q) == t.At(q)
  }

  /** All of it is synced, moves included. */
  ghost predicate SyncedFrom(t: Shared, t': Shared, known: Knowing, moves: seq<Move>) {
    && (forall p :: known(p).remade == (p in t.gone))
    && Synced(t.vault, known, moves, t'.vault) && t'.gone == {}
  }

  ghost predicate SyncStep(t: Shared, t': Shared) {
    exists known, moves :: SyncedFrom(t, t', known, moves)
  }

  ghost predicate NextShared(t: Shared, t': Shared) {
    SyncStep(t, t') || exists p, s :: Outside(t, t', p, s)
  }

  ghost predicate NoneForgets(t: Shared) {
    forall p :: !Forgets(t.At(p))
  }

  /** Each comes of the one before it, and no sync forgets. */
  ghost predicate CarefulRun(run: seq<Shared>) {
    forall i: nat | i + 1 < |run| ::
      NextShared(run[i], run[i + 1]) && (SyncStep(run[i], run[i + 1]) ==> NoneForgets(run[i]))
  }

  ghost predicate AllTraced(t: Shared) {
    forall p :: Traced(t.At(p))
  }

  /** No document is changed or removed but by a merge without conflicts, or with the recorded text. */
  ghost predicate NoneLost(t: Shared, t': Shared, known: Knowing) {
    forall p | p in t.vault.store :: KeptAt(t.vault, t'.vault, known(p), p)
  }

  ghost predicate SyncLosesNone(t: Shared, t': Shared) {
    forall known, moves | SyncedFrom(t, t', known, moves) :: NoneLost(t, t', known)
  }

  ghost predicate KeptAt(v: Vault, v': Vault, k: Known, p: Path)
    requires p in v.store
  {
    var c := v.At(p);
    || v'.At(p).doc == c.doc || (p in v.base && v.base[p].text == v.store[p].text)
    || (c.file.Some? && MergeConflicts(BaseOf(c, k), c.doc.value.text, c.file.value) == 0
        && v'.At(p).doc == Some(Written(c.doc, MergedText(BaseOf(c, k), c.doc.value.text, c.file.value))))
  }

  lemma {:induction false} OutsideKept(t: Shared, t': Shared, p: Path, s: Step)
    requires AllTraced(t) && Outside(t, t', p, s)
    ensures AllTraced(t')
  {
    hide Traced, After, Forgets;
    forall q ensures Traced(t'.At(q)) {
      if q == p {
        TracedKept(t.At(p), s);
      } else {
        assert t'.At(q) == t.At(q) && Traced(t.At(q));
      }
    }
  }

  /** A document about to be deleted or moved has the recorded text. */
  lemma {:induction false} DeletedAsRecorded(w: World, k: Known)
    requires Traced(w) && k.remade == w.gone && Decide(w.cell, k).DeleteDoc?
    ensures w.cell.doc.Some? && w.cell.row.Some? && w.cell.row.value.text == w.cell.doc.value.text
  {
    DeletedIs(w.cell, k);
    hide Decide;
  }

  /** A document that moves keeps its version, and its record its text. */
  lemma {:induction false} MovedTraced(t: Shared, t': Shared, known: Knowing, moves: seq<Move>, p: Path)
    requires AllTraced(t) && SyncedFrom(t, t', known, moves) && (Leaves(moves, p) || Arrives(moves, p))
    ensures Traced(t'.At(p))
  {
    hide Decide, Settle;
    assert t'.vault.At(p) == AfterSync(t.vault, known, moves, p);
    if !Leaves(moves, p) {
      var i :| 0 <= i < |moves| && moves[..|moves|][i].to == p
        && AfterSync(t.vault, known, moves, p) == Arrived(t.vault, known, moves, i);
      assert MoveOk(t.vault, known, moves[i]);
      DeletedAsRecorded(t.At(moves[i].from), known(moves[i].from));
    }
  }

  lemma {:induction false} SyncedTraced(t: Shared, t': Shared, known: Knowing, moves: seq<Move>)
    requires AllTraced(t) && SyncedFrom(t, t', known, moves) && NoneForgets(t)
    ensures AllTraced(t')
  {
    hide Traced, Forgets, Decide, Settle, MovesOk;
    forall p ensures Traced(t'.At(p)) {
      if Leaves(moves, p) || Arrives(moves, p) {
        MovedTraced(t, t', known, moves, p);
      } else {
        assert t'.vault.At(p) == AfterSync(t.vault, known, moves, p);
        assert Traced(t.At(p)) && !Forgets(t.At(p));
        TracedKept(t.At(p), Sync(known(p).kept, known(p).eligible));
      }
    }
  }

  lemma {:induction false} SyncedLosesNone(t: Shared, t': Shared, known: Knowing, moves: seq<Move>)
    requires AllTraced(t) && SyncedFrom(t, t', known, moves)
    ensures NoneLost(t, t', known)
  {
    hide Decide, MergedText, MergeConflicts, Synced;
    forall p | p in t.vault.store ensures KeptAt(t.vault, t'.vault, known(p), p) {
      DocsSafe(t.vault, known, moves, t'.vault, p);
      assert Traced(t.At(p));
    }
  }

  /** Over every run of outside steps and syncs of a directory, as long as no sync forgets, records are of
      the documents there are, and no sync loses a document. */
  lemma {:induction false} EveryRunKeeps(run: seq<Shared>, n: nat)
    requires n < |run| && CarefulRun(run) && AllTraced(run[0])
    ensures AllTraced(run[n])
    ensures n + 1 < |run| ==> SyncLosesNone(run[n], run[n + 1])
    decreases n
  {
    hide AllTraced, SyncedFrom, Outside, NoneForgets, NoneLost;
    if n > 0 {
      EveryRunKeeps(run, n - 1);
      assert NextShared(run[n - 1], run[n - 1 + 1]);
      if SyncStep(run[n - 1], run[n]) {
        var known, moves :| SyncedFrom(run[n - 1], run[n], known, moves);
        SyncedTraced(run[n - 1], run[n], known, moves);
      } else {
        var p, s :| Outside(run[n - 1], run[n], p, s);
        OutsideKept(run[n - 1], run[n], p, s);
      }
    }
    if n + 1 < |run| {
      var t, t' := run[n], run[n + 1];
      forall known, moves | SyncedFrom(t, t', known, moves) ensures NoneLost(t, t', known) {
        SyncedLosesNone(t, t', known, moves);
      }
    }
  }
}
