/** A whole directory brought together with the store: moves found, every path carried out, nothing lost,
    and nothing left to do after two syncs. */
module Syncing {
  import opened Text
  import opened Markers
  import opened Reconciling

  type Path = string

  // ----- directories -----

  /** All documents, files and records. */
  datatype Vault = Vault(store: map<Path, Doc>, disk: map<Path, Bytes>, base: map<Path, Row>)
  {
    function At(p: Path): Cell {
      Cell(if p in store then Some(store[p]) else None, if p in disk then Some(disk[p]) else None,
        if p in base then Some(base[p]) else None)
    }
  }

  function CellOf(store: map<Path, Doc>, disk: map<Path, Bytes>, rows: map<Path, Row>, p: Path): Cell {
    Vault(store, disk, rows).At(p)
  }

  type Knowing = Path -> Known

  ghost function ActionAt(v: Vault, known: Knowing, p: Path): Action {
    Decide(v.At(p), known(p))
  }

  datatype Move = Move(from: Path, to: Path)

  /** The new files here with a given text. */
  ghost function TakenInWith(v: Vault, known: Knowing, paths: seq<Path>, text: Bytes): seq<Path> {
    if paths == [] then []
    else
      var found := ActionAt(v, known, paths[0]).TakeIn? && v.At(paths[0]).file == Some(text);
      (if found then [paths[0]] else []) + TakenInWith(v, known, paths[1..], text)
  }

  /** Of the documents whose files are gone, in path order, each one whose text is that of a single new file
      moves there, unless an earlier one did. */
  ghost function MovesFrom(v: Vault, known: Knowing, all: seq<Path>, paths: seq<Path>, taken: set<Path>): seq<Move> {
    if paths == [] then []
    else
      var to := MoveTo(v, known, all, paths[0], taken);
      if to.None? then MovesFrom(v, known, all, paths[1..], taken)
      else [Move(paths[0], to.value)] + MovesFrom(v, known, all, paths[1..], taken + {to.value})
  }

  /** Where the document of a path goes, if it moves. */
  ghost function MoveTo(v: Vault, known: Knowing, all: seq<Path>, p: Path, taken: set<Path>): Option<Path> {
    if !ActionAt(v, known, p).DeleteDoc? || p !in v.base then None
    else
      var to := TakenInWith(v, known, all, v.base[p].text);
      if |to| == 1 && to[0] !in taken then Some(to[0]) else None
  }

  predicate Leaves(moves: seq<Move>, p: Path) {
    exists i | 0 <= i < |moves| :: moves[i].from == p
  }

  predicate Arrives(moves: seq<Move>, p: Path) {
    exists i | 0 <= i < |moves| :: moves[i].to == p
  }

  /** A move is of a document that is as the last sync left it and whose file is gone, to a new file with
      its text; no path is in two. */
  ghost predicate MoveOk(v: Vault, known: Knowing, m: Move) {
    && m.from in v.base && ActionAt(v, known, m.from).DeleteDoc? && ActionAt(v, known, m.to).TakeIn?
    && v.At(m.to).file == Some(v.base[m.from].text)
  }

  ghost predicate MovesOk(v: Vault, known: Knowing, moves: seq<Move>) {
    && (forall i | 0 <= i < |moves| :: MoveOk(v, known, moves[i]))
    && (forall i, j | 0 <= i < j < |moves| :: moves[i].from != moves[j].from && moves[i].to != moves[j].to)
  }

  lemma {:induction false} TakenInAre(v: Vault, known: Knowing, paths: seq<Path>, text: Bytes)
    ensures forall p | p in TakenInWith(v, known, paths, text) ::
      ActionAt(v, known, p).TakeIn? && v.At(p).file == Some(text) && p in paths
    decreases |paths|
  {
    if paths != [] {
      TakenInAre(v, known, paths[1..], text);
    }
  }

  /** One more path looked at. */
  lemma TakenInStep(v: Vault, known: Knowing, paths: seq<Path>, text: Bytes, found: seq<Path>)
    requires paths != []
    ensures var more := ActionAt(v, known, paths[0]).TakeIn? && v.At(paths[0]).file == Some(text);
      found + TakenInWith(v, known, paths, text)
        == (if more then found + [paths[0]] else found) + TakenInWith(v, known, paths[1..], text)
  {
    hide Decide;
  }

  lemma NoneLeft(v: Vault, known: Knowing, text: Bytes, found: seq<Path>)
    ensures found + TakenInWith(v, known, [], text) == found
  {
  }

  predicate EachOnce(paths: seq<Path>) {
    forall i, j | 0 <= i < j < |paths| :: paths[i] != paths[j]
  }

  lemma {:induction false} MovesAreOk(v: Vault, known: Knowing, all: seq<Path>, paths: seq<Path>, taken: set<Path>)
    requires EachOnce(paths)
    ensures var moves := MovesFrom(v, known, all, paths, taken);
      && MovesOk(v, known, moves)
      && forall i | 0 <= i < |moves| :: moves[i].from in paths && moves[i].to in all && moves[i].to !in taken
    decreases |paths|
  {
    hide Decide;
    if paths != [] {
      var p, rest := paths[0], paths[1..];
      assert EachOnce(rest) && forall q | q in rest :: q != p;
      MovesAreOk(v, known, all, rest, taken);
      var to := MoveTo(v, known, all, p, taken);
      if to.Some? {
        TakenInAre(v, known, all, v.base[p].text);
        MovesAreOk(v, known, all, rest, taken + {to.value});
        MoveInFront(v, known, Move(p, to.value), MovesFrom(v, known, all, rest, taken + {to.value}));
      }
    }
  }

  lemma {:induction false} MoveInFront(v: Vault, known: Knowing, m: Move, moves: seq<Move>)
    requires MovesOk(v, known, moves) && MoveOk(v, known, m)
    requires forall i | 0 <= i < |moves| :: moves[i].from != m.from && moves[i].to != m.to
    ensures MovesOk(v, known, [m] + moves)
  {
    hide MoveOk;
  }

  /** A path that a document arrived at. */
  ghost function Arrived(v: Vault, known: Knowing, moves: seq<Move>, i: nat): Cell
    requires i < |moves| && MovesOk(v, known, moves)
  {
    var m := moves[i];
    assert MoveOk(v, known, m);
    DeletedIs(v.At(m.from), known(m.from));
    var from := v.At(m.from);
    Cell(from.doc, v.At(m.to).file, Some(Row(Some(from.doc.value.version), from.row.value.text, false)))
  }

  /** A path after the first `n` moves, nothing else having been recorded. */
  ghost function MovedSoFar(v: Vault, known: Knowing, moves: seq<Move>, n: nat, p: Path): Cell
    requires n <= |moves| && MovesOk(v, known, moves)
  {
    var c := v.At(p);
    if Leaves(moves[..n], p) then Cell(None, c.file, None)
    else if Arrives(moves[..n], p) then
      var i :| 0 <= i < n && moves[..n][i].to == p;
      Arrived(v, known, moves, i)
    else c.(row := None)
  }

  /** What a sync leaves of a path. */
  ghost function AfterSync(v: Vault, known: Knowing, moves: seq<Move>, p: Path): Cell
    requires MovesOk(v, known, moves)
  {
    DecidedApplies(v.At(p), known(p));
    if Leaves(moves, p) || Arrives(moves, p) then MovedSoFar(v, known, moves, |moves|, p)
    else Settle(v.At(p), ActionAt(v, known, p))
  }

  /** The same while the paths `done` are carried out, after the moves. */
  ghost function DoneSoFar(v: Vault, known: Knowing, moves: seq<Move>, done: seq<Path>, p: Path): Cell
    requires MovesOk(v, known, moves)
  {
    if Leaves(moves, p) || Arrives(moves, p) || p in done then AfterSync(v, known, moves, p) else v.At(p).(row := None)
  }

  /** The two paths of a move, before it is made. */
  lemma {:induction false} StillThere(v: Vault, known: Knowing, moves: seq<Move>, i: nat)
    requires i < |moves| && MovesOk(v, known, moves)
    ensures var m := moves[i];
      && m.from in v.store && m.from in v.base && m.from != m.to && v.At(m.to).doc.None?
      && MovedSoFar(v, known, moves, i, m.from) == v.At(m.from).(row := None)
      && MovedSoFar(v, known, moves, i, m.to) == v.At(m.to).(row := None)
  {
    hide Decide;
    var m := moves[i];
    assert MoveOk(v, known, m);
    DeletedIs(v.At(m.from), known(m.from));
    TakenInIs(v.At(m.to), known(m.to));
    forall j | 0 <= j < i
      ensures moves[j].from != m.from && moves[j].from != m.to && moves[j].to != m.from && moves[j].to != m.to {
      assert MoveOk(v, known, moves[j]);
    }
  }

  lemma {:induction false} OneMoreMoved(v: Vault, known: Knowing, moves: seq<Move>, i: nat, p: Path)
    requires i < |moves| && MovesOk(v, known, moves)
    ensures MovedSoFar(v, known, moves, i + 1, p) ==
      if p == moves[i].from then Cell(None, v.At(p).file, None)
      else if p == moves[i].to then Arrived(v, known, moves, i)
      else MovedSoFar(v, known, moves, i, p)
  {
    hide Decide, Arrived, MoveOk;
    var m := moves[i];
    StillThere(v, known, moves, i);
    assert moves[..i + 1] == moves[..i] + [m];
    assert Leaves(moves[..i + 1], p) <==> Leaves(moves[..i], p) || p == m.from by {
      assert moves[..i + 1][i] == m;
      assert forall j | 0 <= j < i :: moves[..i + 1][j] == moves[..i][j];
    }
    assert Arrives(moves[..i + 1], p) <==> Arrives(moves[..i], p) || p == m.to by {
      assert moves[..i + 1][i] == m;
      assert forall j | 0 <= j < i :: moves[..i + 1][j] == moves[..i][j];
    }
    if p == m.to {
      NotLeaving(v, known, moves, i, i + 1);
    }
  }

  /** Where a document arrives, none leaves. */
  lemma {:induction false} NotLeaving(v: Vault, known: Knowing, moves: seq<Move>, i: nat, n: nat)
    requires i < n <= |moves| && MovesOk(v, known, moves)
    ensures !Leaves(moves[..n], moves[i].to)
  {
    hide Decide;
    assert MoveOk(v, known, moves[i]);
    forall j | 0 <= j < n ensures moves[..n][j].from != moves[i].to {
      assert MoveOk(v, known, moves[j]);
    }
  }

  lemma AllUndone(v: Vault, known: Knowing, moves: seq<Move>)
    requires MovesOk(v, known, moves)
    ensures forall p :: DoneSoFar(v, known, moves, [], p) == MovedSoFar(v, known, moves, |moves|, p)
  {
    hide Decide, Settle;
    assert moves[..|moves|] == moves;
  }

  lemma {:induction false} NotYetDone(v: Vault, known: Knowing, moves: seq<Move>, paths: seq<Path>, i: nat)
    requires MovesOk(v, known, moves) && EachOnce(paths) && i < |paths|
    requires !Leaves(moves, paths[i]) && !Arrives(moves, paths[i])
    ensures DoneSoFar(v, known, moves, paths[..i], paths[i]) == v.At(paths[i]).(row := None)
    ensures AfterSync(v, known, moves, paths[i]) == Settle(v.At(paths[i]), ActionAt(v, known, paths[i]))
  {
    hide Decide;
  }

  lemma {:induction false} OneMoreDone(v: Vault, known: Knowing, moves: seq<Move>, paths: seq<Path>, i: nat, q: Path)
    requires MovesOk(v, known, moves) && i < |paths|
    ensures DoneSoFar(v, known, moves, paths[..i + 1], q) ==
      if q == paths[i] then AfterSync(v, known, moves, q) else DoneSoFar(v, known, moves, paths[..i], q)
  {
    hide AfterSync;
    assert paths[..i + 1] == paths[..i] + [paths[i]];
  }

  /** A path of which there is nothing stays that way. */
  lemma {:induction false} AllDone(v: Vault, known: Knowing, moves: seq<Move>, paths: seq<Path>, p: Path)
    requires MovesOk(v, known, moves) && forall q :: q in v.store || q in v.disk || q in v.base ==> q in paths
    ensures DoneSoFar(v, known, moves, paths, p) == AfterSync(v, known, moves, p)
  {
    hide HasMarkers, MergedText, MergeConflicts;
  }

  lemma DeletedIs(c: Cell, k: Known)
    requires Decide(c, k).DeleteDoc?
    ensures c.doc.Some? && c.row.Some? && c.file.None? && !DocChanged(c, k)
  {
    hide HasMarkers, MergedText, MergeConflicts;
  }

  lemma TakenInIs(c: Cell, k: Known)
    requires Decide(c, k).TakeIn?
    ensures c.doc.None? && c.row.None? && c.file.Some?
  {
    hide HasMarkers, MergedText, MergeConflicts;
  }

  /** A sync brings every path to its outcome. */
  ghost predicate Synced(v: Vault, known: Knowing, moves: seq<Move>, v': Vault) {
    MovesOk(v, known, moves) && forall p :: v'.At(p) == AfterSync(v, known, moves, p)
  }

  /** The next plan has no transfer, deletion, move, merge or new conflict. */
  ghost predicate AllQuiet(v: Vault, known: Knowing) {
    forall p :: Quiet(ActionAt(v, known, p))
  }

  /** What is known at a later sync, nothing having happened to the store in between. */
  ghost predicate Later(known: Knowing, known': Knowing) {
    forall p :: known'(p) == NextKnown(known(p), known'(p).kept)
  }

  // ----- nothing is lost in a sync -----

  /** No file that differs from what the last sync left is deleted, moved or overwritten but by its merge. */
  lemma {:induction false} FilesSafe(v: Vault, known: Knowing, moves: seq<Move>, v': Vault, p: Path)
    requires Synced(v, known, moves, v') && p in v.disk
    ensures var c := v.At(p);
      || v'.At(p).file == c.file || FileAsLeft(c)
      || (c.doc.Some? && v'.At(p).file == Some(MergedText(BaseOf(c, known(p)), c.doc.value.text, c.file.value)))
  {
    hide Decide, MergedText, MovesOk;
    assert v'.At(p) == AfterSync(v, known, moves, p);
    FileSafe(v.At(p), known(p));
  }

  /** No document that differs from it is deleted, moved or overwritten but by a merge without conflicts. */
  lemma {:induction false} DocsSafe(v: Vault, known: Knowing, moves: seq<Move>, v': Vault, p: Path)
    requires Synced(v, known, moves, v') && p in v.store
    ensures var c, k := v.At(p), known(p);
      || v'.At(p).doc == c.doc || DocAsLeft(c, k)
      || (c.file.Some? && MergeConflicts(BaseOf(c, k), c.doc.value.text, c.file.value) == 0
          && v'.At(p).doc == Some(Written(c.doc, MergedText(BaseOf(c, k), c.doc.value.text, c.file.value))))
  {
    hide Decide, MergedText, MergeConflicts;
    assert v'.At(p) == AfterSync(v, known, moves, p);
    if Leaves(moves, p) {
      var i :| 0 <= i < |moves| && moves[i].from == p;
      assert MoveOk(v, known, moves[i]);
      DeletedIs(v.At(p), known(p));
    } else if Arrives(moves, p) {
      var i :| 0 <= i < |moves| && moves[i].to == p;
      assert MoveOk(v, known, moves[i]);
      TakenInIs(v.At(p), known(p));
    } else {
      DocSafe(v.At(p), known(p));
    }
  }

  // ----- two syncs are enough -----

  /** A path that was moved from or to is quiet. */
  lemma {:induction false} MovedSettles(v: Vault, known: Knowing, moves: seq<Move>, p: Path, kept: bool)
    requires MovesOk(v, known, moves) && (Leaves(moves, p) || Arrives(moves, p))
    ensures !UnmarkedConflict(v.At(p))
    ensures var c', k' := AfterSync(v, known, moves, p), NextKnown(known(p), kept);
      Quiet(Decide(c', k')) && !UnmarkedConflict(c')
  {
    hide HasMarkers, MergedText, MergeConflicts;
    if Leaves(moves, p) {
      var i :| 0 <= i < |moves| && moves[i].from == p;
      assert MoveOk(v, known, moves[i]);
      DeletedIs(v.At(p), known(p));
    } else {
      var i :| 0 <= i < |moves| && moves[i].to == p;
      assert MoveOk(v, known, moves[i]);
      TakenInIs(v.At(p), known(p));
      DeletedIs(v.At(moves[i].from), known(moves[i].from));
    }
  }

  /** After one sync the next plan is quiet exactly when no file that was new to both met an empty document
      without looking like a conflict. */
  lemma {:induction false} OneSyncQuietIff(v: Vault, known: Knowing, moves: seq<Move>, v': Vault, known': Knowing)
    requires Synced(v, known, moves, v') && Later(known, known')
    ensures forall p :: !UnmarkedConflict(v'.At(p))
    ensures AllQuiet(v', known') <==> forall p :: !UnmarkedConflict(v.At(p))
    ensures forall p :: Quiet(ActionAt(v', known', p)) || ActionAt(v', known', p) == ToStore
  {
    forall p
      ensures !UnmarkedConflict(v'.At(p))
      ensures if UnmarkedConflict(v.At(p)) then ActionAt(v', known', p) == ToStore else Quiet(ActionAt(v', known', p))
    {
      PathSettles(v, known, moves, v', known', p);
    }
  }

  lemma {:induction false} PathSettles(v: Vault, known: Knowing, moves: seq<Move>, v': Vault, known': Knowing, p: Path)
    requires Synced(v, known, moves, v') && Later(known, known')
    ensures !UnmarkedConflict(v'.At(p))
    ensures if UnmarkedConflict(v.At(p)) then ActionAt(v', known', p) == ToStore else Quiet(ActionAt(v', known', p))
  {
    hide Decide, UnmarkedConflict, MovesOk, Quiet;
    assert v'.At(p) == AfterSync(v, known, moves, p) && known'(p) == NextKnown(known(p), known'(p).kept);
    if Leaves(moves, p) || Arrives(moves, p) {
      MovedSettles(v, known, moves, p, known'(p).kept);
    } else {
      CellSettles(v.At(p), known(p), known'(p).kept);
    }
  }

  /** With no change from outside, after two syncs the next plan has nothing to do. */
  lemma {:induction false} TwoSyncsSettle(v: Vault, known: Knowing, moves: seq<Move>, v1: Vault, known1: Knowing,
      moves1: seq<Move>, v2: Vault, known2: Knowing)
    requires Synced(v, known, moves, v1) && Later(known, known1)
    requires Synced(v1, known1, moves1, v2) && Later(known1, known2)
    ensures AllQuiet(v2, known2)
  {
    hide Synced, Later, AllQuiet, UnmarkedConflict;
    OneSyncQuietIff(v, known, moves, v1, known1);
    OneSyncQuietIff(v1, known1, moves1, v2, known2);
  }

  // ----- the sync itself -----

  /** A directory and the store it is synced with. */
  class Checkout {
    var store: map<Path, Doc>
    var disk: map<Path, Bytes>
    var base: map<Path, Row>

    ghost function Now(): Vault
      reads this
    {
      Vault(store, disk, base)
    }

    function At(p: Path): (c: Cell)
      reads this
      ensures c == Now().At(p)
    {
      Cell(if p in store then Some(store[p]) else None, if p in disk then Some(disk[p]) else None,
        if p in base then Some(base[p]) else None)
    }

    /** Decide every path. */
    method MakePlan(paths: seq<Path>, known: map<Path, Known>, ghost knowing: Knowing) returns (plan: map<Path, Action>)
      requires forall p | p in paths :: p in known && known[p] == knowing(p)
      ensures plan.Keys == set p | p in paths
      ensures forall p | p in paths :: plan[p] == ActionAt(Now(), knowing, p)
    {
      hide Decide;
      plan := map[];
      var i := 0;
      while i < |paths|
        invariant i <= |paths| && plan.Keys == set p | p in paths[..i]
        invariant forall p | p in paths[..i] :: plan[p] == ActionAt(Now(), knowing, p)
      {
        var p := paths[i];
        assert paths[..i + 1] == paths[..i] + [p];
        var a := DecidePath(At(p), known[p]);
        plan := plan[p := a];
        i := i + 1;
      }
      assert paths[..i] == paths;
    }

    /** The new files with a text, by a look at every path. */
    method FindNew(paths: seq<Path>, plan: map<Path, Action>, text: Bytes, ghost knowing: Knowing)
        returns (found: seq<Path>)
      requires forall p | p in paths :: p in plan && plan[p] == ActionAt(Now(), knowing, p)
      ensures found == TakenInWith(Now(), knowing, paths, text)
    {
      hide Decide, TakenInWith, ActionAt;
      found := [];
      ghost var left := paths;
      var i := 0;
      while i < |paths|
        invariant i <= |paths| && left == paths[i..]
        invariant found + TakenInWith(Now(), knowing, left, text) == TakenInWith(Now(), knowing, paths, text)
      {
        var p := paths[i];
        TakenInStep(Now(), knowing, left, text, found);
        if plan[p].TakeIn? && p in disk && disk[p] == text {
          found := found + [p];
        }
        left := left[1..];
        i := i + 1;
      }
      NoneLeft(Now(), knowing, text, found);
    }

    /** Pair the documents whose files are gone with new files of the same text. */
    method FindMoves(paths: seq<Path>, plan: map<Path, Action>, ghost knowing: Knowing) returns (moves: seq<Move>)
      requires forall p | p in paths :: p in plan && plan[p] == ActionAt(Now(), knowing, p)
      ensures moves == MovesFrom(Now(), knowing, paths, paths, {})
    {
      hide Decide, TakenInWith;
      moves := [];
      var taken: set<Path> := {};
      ghost var left := paths;
      var i := 0;
      while i < |paths|
        invariant i <= |paths| && left == paths[i..]
        invariant moves + MovesFrom(Now(), knowing, paths, left, taken) == MovesFrom(Now(), knowing, paths, paths, {})
      {
        var p := paths[i];
        if plan[p].DeleteDoc? && p in base {
          var to := FindNew(paths, plan, base[p].text, knowing);
          if |to| == 1 && to[0] !in taken {
            moves := moves + [Move(p, to[0])];
            taken := taken + {to[0]};
          }
        }
        left := left[1..];
        i := i + 1;
      }
    }

    /** The move steps: each document goes to its new path, and is recorded there. */
    method ApplyMoves(moves: seq<Move>, ghost v: Vault, ghost known: Knowing) returns (rows: map<Path, Row>)
      requires v == Now() && MovesOk(v, known, moves)
      modifies this`store
      ensures forall p :: CellOf(store, disk, rows, p) == MovedSoFar(v, known, moves, |moves|, p)
    {
      hide Decide;
      rows := map[];
      var i := 0;
      while i < |moves|
        invariant i <= |moves| && disk == v.disk && base == v.base
        invariant forall p :: CellOf(store, disk, rows, p) == MovedSoFar(v, known, moves, i, p)
      {
        var m := moves[i];
        StillThere(v, known, moves, i);
        assert CellOf(store, disk, rows, m.from) == MovedSoFar(v, known, moves, i, m.from);
        var d := store[m.from];
        store := (store - {m.from})[m.to := d];
        rows := rows[m.to := Row(Some(d.version), base[m.from].text, false)];
        forall p ensures CellOf(store, disk, rows, p) == MovedSoFar(v, known, moves, i + 1, p) {
          OneMoreMoved(v, known, moves, i, p);
        }
        i := i + 1;
      }
    }

    /** The step for a path that does not move. */
    method ApplyAction(p: Path, a: Action, before: map<Path, Row>, ghost c: Cell) returns (rows: map<Path, Row>)
      requires c == At(p) && Applies(c, a) && p !in before
      modifies this`store, this`disk
      ensures CellOf(store, disk, rows, p) == Settle(c, a)
      ensures forall q | q != p :: CellOf(store, disk, rows, q) == CellOf(old(store), old(disk), before, q)
    {
      rows := before;
      match a
      case Nothing =>
      case Keep =>
        rows := rows[p := Row(Some(store[p].version), base[p].text, false)];
      case Hold =>
        rows := rows[p := base[p]];
      case Adopt =>
        rows := rows[p := Row(Some(store[p].version), store[p].text, false)];
      case ToDisk =>
        disk := disk[p := store[p].text];
        rows := rows[p := Row(Some(store[p].version), store[p].text, false)];
      case ToStore =>
        rows := Push(p, disk[p], rows);
      case TakeIn =>
        rows := Push(p, disk[p], rows);
      case Merge(text) =>
        rows := Push(p, text, rows);
        disk := disk[p := text];
      case Mark(text) =>
        disk := disk[p := text];
        rows := rows[p := Row(Some(store[p].version), store[p].text, true)];
      case DeleteDoc =>
        store := store - {p};
      case DeleteFile =>
        disk := disk - {p};
    }

    /** Write a text to the store, and record it. */
    method Push(p: Path, text: Bytes, before: map<Path, Row>) returns (rows: map<Path, Row>)
      modifies this`store
      ensures var d := Written(if p in old(store) then Some(old(store)[p]) else None, text);
        store == old(store)[p := d] && rows == before[p := Row(Some(d.version), text, false)]
    {
      if p !in store {
        store := store[p := Doc(1, text)];
      } else if store[p].text != text {
        store := store[p := Doc(store[p].version + 1, text)];
      }
      rows := before[p := Row(Some(store[p].version), text, false)];
    }

    /** Plan, and then carry out: the moves, and what is to be done for every other path. */
    method Sync(paths: seq<Path>, known: map<Path, Known>, ghost knowing: Knowing) returns (ghost moves: seq<Move>)
      requires EachOnce(paths) && forall p :: p in store || p in disk || p in base ==> p in paths
      requires forall p | p in paths :: p in known && known[p] == knowing(p)
      modifies this
      ensures moves == MovesFrom(old(Now()), knowing, paths, paths, {})
      ensures Synced(old(Now()), knowing, moves, Now())
    {
      hide Decide, MovesFrom;
      ghost var v := Now();
      var plan := MakePlan(paths, known, knowing);
      var planned := FindMoves(paths, plan, knowing);
      moves := planned;
      MovesAreOk(v, knowing, paths, paths, {});
      var rows := ApplyMoves(planned, v, knowing);
      rows := ApplyPlan(paths, plan, planned, rows, v, knowing);
      base := rows;
      forall p ensures Now().At(p) == AfterSync(v, knowing, moves, p) {
        assert Now().At(p) == CellOf(store, disk, rows, p);
      }
    }

    method ApplyPlan(paths: seq<Path>, plan: map<Path, Action>, moves: seq<Move>, before: map<Path, Row>,
        ghost v: Vault, ghost known: Knowing) returns (rows: map<Path, Row>)
      requires EachOnce(paths) && forall p :: p in v.store || p in v.disk || p in v.base ==> p in paths
      requires forall p | p in paths :: p in plan && plan[p] == ActionAt(v, known, p)
      requires MovesOk(v, known, moves) && base == v.base
      requires forall p :: CellOf(store, disk, before, p) == MovedSoFar(v, known, moves, |moves|, p)
      modifies this`store, this`disk
      ensures base == v.base && forall p :: CellOf(store, disk, rows, p) == AfterSync(v, known, moves, p)
    {
      hide Decide, MovesOk, AfterSync, Settle, MovedSoFar;
      rows := before;
      var i := 0;
      AllUndone(v, known, moves);
      assert paths[..0] == [];
      while i < |paths|
        invariant i <= |paths| && base == v.base
        invariant forall p :: CellOf(store, disk, rows, p) == DoneSoFar(v, known, moves, paths[..i], p)
      {
        var p := paths[i];
        ghost var st, dk, rs := store, disk, rows;
        assert CellOf(st, dk, rs, p) == DoneSoFar(v, known, moves, paths[..i], p);
        if !Leaves(moves, p) && !Arrives(moves, p) {
          NotYetDone(v, known, moves, paths, i);
          DecidedApplies(v.At(p), known(p));
          rows := ApplyAction(p, plan[p], rows, v.At(p));
        }
        forall q ensures CellOf(store, disk, rows, q) == DoneSoFar(v, known, moves, paths[..i + 1], q) {
          OneMoreDone(v, known, moves, paths, i, q);
        }
        i := i + 1;
      }
      forall p ensures CellOf(store, disk, rows, p) == AfterSync(v, known, moves, p) {
        assert paths[..i] == paths;
        AllDone(v, known, moves, paths, p);
      }
    }
  }
}
