/** What a commit answers to the inputs of the cases before, the diff of the two documents included, when
    each of these is one chunk. */
module CommitCases {
  import opened Text
  import opened Chunker
  import opened Lines
  import opened Nodes
  import opened Tree
  import opened Splicing
  import opened ByteEdits
  import opened TreeDiff
  import opened Regions
  import opened Reports
  import opened Budgets
  import opened Shifting
  import opened Rebasing
  import opened RebaseCases
  import opened Landing
  import opened Committing

  /** A rebase over the runs that are reported, which are these, gives one answer. */
  lemma {:induction false} AnswerIs(cfg: Config, t: Bytes, u: Bytes, es: seq<Edit>, v: nat, p: Proposal,
      run: ChangedRun) returns (r: RebaseOutcome)
    requires cfg.Valid() && t != u && Proposes(cfg, BuildRoot(cfg, t), BuildRoot(cfg, u), es, v, p)
    requires forall runs | Reported(cfg, t, u, runs) :: runs == [run]
    ensures RunsOf(t, u, [run]) && RebasedAs(cfg, t, u, [run], es, v, r) && p == ProposalOf(r)
  {
    hide Reported, RunsOf, RebasedAs, BuildRoot;
    RootsNameDocuments(cfg, t, u);
    BuiltIs(cfg, t);
    BuiltIs(cfg, u);
    var runs: seq<ChangedRun>;
    runs, r :| Reported(cfg, t, u, runs) && RunsOf(t, u, runs) && RebasedAs(cfg, t, u, runs, es, v, r)
      && p == ProposalOf(r);
  }

  lemma BuiltIs(cfg: Config, t: Bytes)
    requires cfg.Valid()
    ensures TextOf(BuildRoot(cfg, t)) == t
  {
    var _ := BuiltRoot(cfg, t);
  }

  // ----- what is reported -----

  /** The first line changes in its first byte. */
  lemma {:induction false} StraddledReport(cfg: Config, runs: seq<ChangedRun>)
    requires cfg.Valid() && |STRADDLED| <= cfg.chunking.min && Reported(cfg, STRADDLED, STRADDLED_NOW, runs)
    ensures runs == [STRADDLED_RUN]
  {
    hide Reported, Trimmed;
    var none: seq<Bytes> := [];
    var m, n, q := [[97, 97, NL]], [[120, 97, NL]], [[98, 98, NL], [99, 99, NL]];
    ThreeLines([97, 97, NL], [98, 98, NL], [99, 99, NL]);
    ThreeLines([120, 97, NL], [98, 98, NL], [99, 99, NL]);
    assert none + m + q == [[97, 97, NL], [98, 98, NL], [99, 99, NL]];
    assert none + n + q == [[120, 97, NL], [98, 98, NL], [99, 99, NL]];
    ConcatOne([97, 97, NL]);
    ConcatOne([120, 97, NL]);
    StraddledTrim();
    StretchReport(cfg, STRADDLED, STRADDLED_NOW, none, m, n, q, Edit(0, 1, [120]), runs);
  }

  lemma StraddledTrim()
    ensures Trimmed(STRADDLED, STRADDLED_NOW, 0, 3, 0, 3) == [Edit(0, 1, [120])]
  {
    var t, u := STRADDLED, STRADDLED_NOW;
    assert t[0] == 97 && u[0] == 120 && t[1] == u[1] && t[2] == u[2];
    assert Front(t, u, 0, 3, 0, 3) == 0;
    assert Back(t, u, 0, 1, 0, 1) == 0 && Back(t, u, 0, 2, 0, 2) == 1 && Back(t, u, 0, 3, 0, 3) == 2;
    assert u[0..1] == [120];
  }

  /** The second of three lines is deleted. */
  lemma {:induction false} DeletedReport(cfg: Config, runs: seq<ChangedRun>)
    requires cfg.Valid() && |DELETED| <= cfg.chunking.min && Reported(cfg, DELETED, DELETED_NOW, runs)
    ensures runs == [DELETED_RUN]
  {
    hide Reported, Trimmed;
    var none: seq<Bytes> := [];
    var x, y, z := [97, NL], [98, NL], [99, NL];
    ThreeLines(x, y, z);
    TwoLines(x, z);
    assert [x] + [y] + [z] == [x, y, z] && [x] + none + [z] == [x, z];
    ConcatOne(x);
    ConcatOne(y);
    assert Concat(none) == [];
    DeletedTrim();
    StretchReport(cfg, DELETED, DELETED_NOW, [x], [y], none, [z], Edit(2, 4, []), runs);
  }

  lemma DeletedTrim()
    ensures Trimmed(DELETED, DELETED_NOW, 2, 4, 2, 2) == [Edit(2, 4, [])]
  {
    assert DELETED_NOW[2..2] == [];
  }

  lemma TwoLines(x: Bytes, y: Bytes)
    requires Terminated(x) && Terminated(y)
    ensures AreLines([x, y]) && Concat([x, y]) == x + y
  {
    var none: seq<Bytes> := [];
    assert [x, y][1..] == [y] && [y][1..] == none;
    assert Concat(none) == [] && Concat([y]) == y;
  }

  lemma MoreLines(ls: seq<Bytes>, ms: seq<Bytes>)
    requires AreLines(ls) && AreLines(ms) && (ls != [] ==> Terminated(ls[|ls| - 1]))
    ensures AreLines(ls + ms) && Concat(ls + ms) == Concat(ls) + Concat(ms)
  {
    ConcatAppend(ls, ms);
  }

  /** The first two lines of six are deleted, and all four that are left are shared from the front on. */
  lemma {:induction false} CutReport(cfg: Config, runs: seq<ChangedRun>)
    requires cfg.Valid() && |THRICE| <= cfg.chunking.min && Reported(cfg, THRICE, AFTER_CUT, runs)
    ensures runs == [CUT_RUN]
  {
    hide Reported, Trimmed, AreLines, Concat;
    var none: seq<Bytes> := [];
    var x, y := [97, NL], [98, NL];
    TwoLines(x, y);
    MoreLines([x, y], [x, y]);
    MoreLines([x, y] + [x, y], [x, y]);
    var four := [x, y] + [x, y];
    assert four + [x, y] + none == four + [x, y] && four + none + none == four;
    NoLines();
    CutTrim();
    StretchReport(cfg, THRICE, AFTER_CUT, four, [x, y], none, none, Edit(8, 12, []), runs);
  }

  lemma NoLines()
    ensures Concat([]) == []
  {
  }

  lemma CutTrim()
    ensures Trimmed(THRICE, AFTER_CUT, 8, 12, 8, 8) == [Edit(8, 12, [])]
  {
    assert AFTER_CUT[8..8] == [];
  }

  /** The third line of six changes in its first byte. */
  lemma {:induction false} ChangeReport(cfg: Config, runs: seq<ChangedRun>)
    requires cfg.Valid() && |THRICE| <= cfg.chunking.min && Reported(cfg, THRICE, AFTER_CHANGE, runs)
    ensures runs == [CHANGE_RUN]
  {
    hide Reported, Trimmed, AreLines, Concat;
    var x, y, z := [97, NL], [98, NL], [122, NL];
    TwoLines(x, y);
    ThreeLines(y, x, y);
    SixLines(x);
    SixLines(z);
    ConcatOne(x);
    ConcatOne(z);
    ChangeTrim();
    StretchReport(cfg, THRICE, AFTER_CHANGE, [x, y], [x], [z], [y, x, y], Edit(4, 5, [122]), runs);
  }

  lemma SixLines(l: Bytes)
    requires Terminated(l)
    ensures var x, y := [97, NL], [98, NL]; var ls := [x, y] + [l] + [y, x, y];
      AreLines(ls) && Concat(ls) == [97, NL, 98, NL] + l + [98, NL, 97, NL, 98, NL]
  {
    hide Concat;
    var x, y := [97, NL], [98, NL];
    TwoLines(x, y);
    ThreeLines(y, x, y);
    ConcatOne(l);
    MoreLines([x, y], [l]);
    MoreLines([x, y] + [l], [y, x, y]);
  }

  lemma ChangeTrim()
    ensures Trimmed(THRICE, AFTER_CHANGE, 4, 6, 4, 6) == [Edit(4, 5, [122])]
  {
    var t, u := THRICE, AFTER_CHANGE;
    assert t[4] == 97 && u[4] == 122 && t[5] == u[5];
    assert Front(t, u, 4, 6, 4, 6) == 0;
    assert Back(t, u, 4, 5, 4, 5) == 0 && Back(t, u, 4, 6, 4, 6) == 1;
    assert u[4..5] == [122];
  }

  /** One line changes in its second byte. */
  lemma {:induction false} ClashReport(cfg: Config, runs: seq<ChangedRun>)
    requires cfg.Valid() && |CLASH| <= cfg.chunking.min && Reported(cfg, CLASH, CLASH_NOW, runs)
    ensures runs == [CLASH_RUN]
  {
    hide Reported, Trimmed, Concat;
    var none: seq<Bytes> := [];
    assert none + [CLASH] + none == [CLASH] && none + [CLASH_NOW] + none == [CLASH_NOW];
    NoLines();
    ConcatOne(CLASH);
    ConcatOne(CLASH_NOW);
    ClashTrim();
    StretchReport(cfg, CLASH, CLASH_NOW, none, [CLASH], [CLASH_NOW], none, Edit(1, 2, [121]), runs);
  }

  lemma ClashTrim()
    ensures Trimmed(CLASH, CLASH_NOW, 0, 3, 0, 3) == [Edit(1, 2, [121])]
  {
    var t, u := CLASH, CLASH_NOW;
    assert t[0] == u[0] && t[1] == 98 && u[1] == 121 && t[2] == u[2];
    assert Front(t, u, 1, 3, 1, 3) == 0 && Front(t, u, 0, 3, 0, 3) == 1;
    assert Back(t, u, 1, 2, 1, 2) == 0 && Back(t, u, 1, 3, 1, 3) == 1;
    assert u[1..2] == [121];
  }

  // ----- what is answered -----

  /** On the document they were made against, edits go in as they are, or are refused as invalid. */
  lemma {:induction false} UnmovedIsDirect(cfg: Config, t: Bytes, es: seq<Edit>, v: nat, p: Proposal)
    requires cfg.Valid() && Proposes(cfg, BuildRoot(cfg, t), BuildRoot(cfg, t), es, v, p)
    ensures Ascending(es, 0, |t|) ==> p == Propose(BuildRoot(cfg, Splice(t, es)), Direct)
    ensures !Ascending(es, 0, |t|) ==> p == Refuse(Invalid)
  {
    hide BuildRoot, Ascending, Splice;
    BuiltIs(cfg, t);
  }

  /** Two sides change different bytes of one line: a conflict, with the line as the base, as it is now and
      as we have it, and the version that was read. */
  lemma {:induction false} ClashRefuses(cfg: Config, v: nat, p: Proposal)
    requires cfg.Valid() && |CLASH| <= cfg.chunking.min
    requires Proposes(cfg, BuildRoot(cfg, CLASH), BuildRoot(cfg, CLASH_NOW), [CLASHING], v, p)
    ensures p == Refuse(CommitResult.Conflict(ConflictInfo(1, 1, CLASH, CLASH_NOW, [120, 98, NL], v)))
  {
    hide Reported, RunsOf, RebasedAs, BuildRoot, Ascending, Proposes;
    forall runs | Reported(cfg, CLASH, CLASH_NOW, runs) ensures runs == [CLASH_RUN] {
      ClashReport(cfg, runs);
    }
    assert CLASH[1] != CLASH_NOW[1];
    var r := AnswerIs(cfg, CLASH, CLASH_NOW, [CLASHING], v, p, CLASH_RUN);
    ClashConflicts(cfg, v, r);
  }

  /** A valid edit set, which both sides agree on, is refused as invalid: its second edit collides with
      nothing, and reaches into the region that the first one is merged in. */
  lemma {:induction false} StraddlerRefuses(cfg: Config, v: nat, p: Proposal)
    requires cfg.Valid() && |STRADDLED| <= cfg.chunking.min
    requires Proposes(cfg, BuildRoot(cfg, STRADDLED), BuildRoot(cfg, STRADDLED_NOW), STRADDLING, v, p)
    ensures Ascending(STRADDLING, 0, |STRADDLED|) && p == Refuse(Invalid)
  {
    hide Reported, RunsOf, RebasedAs, BuildRoot, Ascending, Proposes;
    forall runs | Reported(cfg, STRADDLED, STRADDLED_NOW, runs) ensures runs == [STRADDLED_RUN] {
      StraddledReport(cfg, runs);
    }
    assert STRADDLED[0] != STRADDLED_NOW[0];
    var r := AnswerIs(cfg, STRADDLED, STRADDLED_NOW, STRADDLING, v, p, STRADDLED_RUN);
    StraddlerRefused(cfg, v, r);
  }

  /** Both sides delete a line, and we change the next one too: a valid edit set refused as invalid. */
  lemma {:induction false} NeighbourRefuses(cfg: Config, v: nat, p: Proposal)
    requires cfg.Valid() && |DELETED| <= cfg.chunking.min
    requires Proposes(cfg, BuildRoot(cfg, DELETED), BuildRoot(cfg, DELETED_NOW),
      [Edit(2, 4, []), Edit(4, 6, [67, NL])], v, p)
    ensures Ascending([Edit(2, 4, []), Edit(4, 6, [67, NL])], 0, |DELETED|) && p == Refuse(Invalid)
  {
    hide Reported, RunsOf, RebasedAs, BuildRoot, Ascending, Proposes;
    forall runs | Reported(cfg, DELETED, DELETED_NOW, runs) ensures runs == [DELETED_RUN] {
      DeletedReport(cfg, runs);
    }
    assert DELETED[2] != DELETED_NOW[2];
    var r := AnswerIs(cfg, DELETED, DELETED_NOW, [Edit(2, 4, []), Edit(4, 6, [67, NL])], v, p, DELETED_RUN);
    NeighbourRefused(cfg, v, r);
  }

  /** Both change sets together, their deletion and our two insertions, put X first. */
  ghost predicate XThenY() {
    var all := [Edit(2, 4, []), Edit(4, 4, [88, NL]), Edit(4, 4, [89, NL])];
    Ascending(all, 0, |DELETED|) && Splice(DELETED, all) == [97, NL, 88, NL, 89, NL, 99, NL]
  }

  /** They delete a line; we put X behind it, and Y behind X. The merge puts Y before X. */
  lemma {:induction false} InsertionsSwap(cfg: Config, v: nat, p: Proposal)
    requires cfg.Valid() && |DELETED| <= cfg.chunking.min
    requires Proposes(cfg, BuildRoot(cfg, DELETED), BuildRoot(cfg, DELETED_NOW),
      [Edit(2, 4, [98, NL, 88, NL]), Edit(4, 4, [89, NL])], v, p)
    ensures p == Propose(BuildRoot(cfg, [97, NL, 89, NL, 88, NL, 99, NL]), MergedOnto)
    ensures XThenY()
  {
    hide Reported, RunsOf, RebasedAs, BuildRoot, Ascending, Proposes, SpliceFrom;
    JumpTexts();
    forall runs | Reported(cfg, DELETED, DELETED_NOW, runs) ensures runs == [DELETED_RUN] {
      DeletedReport(cfg, runs);
    }
    assert DELETED[2] != DELETED_NOW[2];
    var r := AnswerIs(cfg, DELETED, DELETED_NOW, [Edit(2, 4, [98, NL, 88, NL]), Edit(4, 4, [89, NL])], v, p,
      DELETED_RUN);
    InsertionJumpsAhead(cfg, v, r);
  }

  const CUT_FIRST: Bytes := [97, NL, 98, NL, 122, NL, 98, NL]
  const CHANGE_FIRST: Bytes := [122, NL, 98, NL, 97, NL, 98, NL]

  lemma {:induction false} CutLands(cfg: Config, v: nat, p: Proposal)
    requires cfg.Valid() && |THRICE| <= cfg.chunking.min
    requires Proposes(cfg, BuildRoot(cfg, THRICE), BuildRoot(cfg, AFTER_CUT), [CHANGE], v, p)
    ensures p == Propose(BuildRoot(cfg, CUT_FIRST), RebasedOnto)
  {
    hide Reported, RunsOf, RebasedAs, BuildRoot, Proposes, Splice;
    forall runs | Reported(cfg, THRICE, AFTER_CUT, runs) ensures runs == [CUT_RUN] {
      CutReport(cfg, runs);
    }
    assert |THRICE| != |AFTER_CUT|;
    var r := AnswerIs(cfg, THRICE, AFTER_CUT, [CHANGE], v, p, CUT_RUN);
    OrderMatters(cfg, v, v, r, r);
  }

  lemma {:induction false} ChangeLands(cfg: Config, v: nat, p: Proposal)
    requires cfg.Valid() && |THRICE| <= cfg.chunking.min
    requires Proposes(cfg, BuildRoot(cfg, THRICE), BuildRoot(cfg, AFTER_CHANGE), [CUT], v, p)
    ensures p == Propose(BuildRoot(cfg, CHANGE_FIRST), RebasedOnto)
  {
    hide Reported, RunsOf, RebasedAs, BuildRoot, Proposes, Splice;
    forall runs | Reported(cfg, THRICE, AFTER_CHANGE, runs) ensures runs == [CHANGE_RUN] {
      ChangeReport(cfg, runs);
    }
    assert THRICE[4] != AFTER_CHANGE[4];
    var r := AnswerIs(cfg, THRICE, AFTER_CHANGE, [CUT], v, p, CHANGE_RUN);
    OrderMatters(cfg, v, v, r, r);
  }

  /** Both are edits of the base, with nothing in common. */
  ghost predicate Apart() {
    && Ascending([CUT], 0, |THRICE|) && Ascending([CHANGE], 0, |THRICE|) && Separate([CUT], [CHANGE])
    && NoneSwallowed([CUT], [CHANGE]) && NoneSwallowed([CHANGE], [CUT])
    && Splice(THRICE, [CUT]) == AFTER_CUT && Splice(THRICE, [CHANGE]) == AFTER_CHANGE
  }

  /** Two separate change sets, neither of which swallows the other: which one lands first decides what
      the document is in the end. */
  lemma {:induction false} OrderDecides(cfg: Config, v: nat, w: nat, p: Proposal, q: Proposal)
    requires cfg.Valid() && |THRICE| <= cfg.chunking.min
    requires Proposes(cfg, BuildRoot(cfg, THRICE), BuildRoot(cfg, AFTER_CUT), [CHANGE], v, p)
    requires Proposes(cfg, BuildRoot(cfg, THRICE), BuildRoot(cfg, AFTER_CHANGE), [CUT], w, q)
    ensures p == Propose(BuildRoot(cfg, CUT_FIRST), RebasedOnto)
    ensures q == Propose(BuildRoot(cfg, CHANGE_FIRST), RebasedOnto) && p.root != q.root
    ensures Apart()
  {
    hide Proposes, BuildRoot, SpliceFrom;
    OrderInput();
    CutLands(cfg, v, p);
    ChangeLands(cfg, w, q);
    RootsNameDocuments(cfg, CUT_FIRST, CHANGE_FIRST);
    assert CUT_FIRST[0] != CHANGE_FIRST[0];
  }
}
