/** Shares: what an account may be granted, and the two translations between its paths and the store's. */
module Access {
  import opened Text

  datatype Rights = Ro | Rw

  /** A folder opened to an account, with what the account calls it and may do there. */
  datatype Grant = Grant(nodeId: int, alias: string, storePath: string, rights: Rights, dormant: bool, revoked: bool)
  {
    function Denied(): Option<Denial> {
      if revoked then Some(Revoked) else if dormant then Some(Dormant) else None
    }

    predicate Live() {
      Denied().None?
    }
  }

  datatype Denial = Dormant | Revoked | ReadOnly

  datatype GrantError =
    | AliasTaken(alias: string, heldBy: string)
    | Overlaps(existing: string, existingAlias: string)
    | AlreadyGranted(alias: string)
    | OnlyRoot(root: string)
    | BadRoot(path: string)
    | BadAlias(alias: string)

  datatype AddResult = Granted(grant: Grant) | Refused(error: GrantError)

  datatype Namespace = Aliased | SingleRoot

  // ----- paths -----

  /** Without its trailing slashes. */
  function TrimEnd(p: string): (r: string)
    ensures r <= p && (r == "" || r[|r| - 1] != '/')
    ensures p != "" && p[|p| - 1] != '/' ==> r == p
  {
    if p != "" && p[|p| - 1] == '/' then TrimEnd(p[..|p| - 1]) else p
  }

  predicate HasEmptySegment(p: string) {
    exists i | 0 <= i < |p| - 1 :: p[i] == '/' && p[i + 1] == '/'
  }

  /** A normalised store path below the root. */
  predicate IsPath(p: string) {
    |p| > 1 && p[0] == '/' && p[|p| - 1] != '/' && !HasEmptySegment(p)
  }

  /** The part behind the last slash. */
  function LastSegment(p: string): string {
    if p == "" || p[|p| - 1] == '/' then "" else LastSegment(p[..|p| - 1]) + [p[|p| - 1]]
  }

  predicate Blank(c: char) {
    c == ' ' || '\t' <= c <= '\r'
  }

  /** One path segment that a path can be addressed by. */
  predicate IsAlias(a: string) {
    && a != "" && a != "." && a != ".." && '/' !in a && '\0' !in a
    && !Blank(a[0]) && !Blank(a[|a| - 1])
  }

  /** One path is the other, or continues it behind a slash. */
  predicate Contains(outer: string, inner: string) {
    inner == outer || (outer <= inner && |inner| > |outer| && inner[|outer|] == '/')
  }

  predicate Overlap(p: string, q: string) {
    Contains(p, q) || Contains(q, p)
  }

  /** Two folders that hold the same path hold one another. */
  lemma SharedMeansOverlap(p: string, q: string, inner: string)
    requires Contains(p, inner) && Contains(q, inner)
    ensures Overlap(p, q)
  {
    if |p| <= |q| {
      assert p == inner[..|p|] == q[..|p|];
      if |p| < |q| {
        assert q[|p|] == inner[|p|];
      }
    } else {
      assert q == inner[..|q|] == p[..|q|];
      assert p[|q|] == inner[|q|];
    }
  }

  // ----- the table of grants, in the order of its keys -----

  datatype Row = Row(key: string, grant: Grant)

  predicate Less(a: string, b: string) {
    if b == "" then false
    else if a == "" then true
    else if a[0] == b[0] then Less(a[1..], b[1..])
    else a[0] < b[0]
  }

  function Find(rows: seq<Row>, key: string): (r: Option<Grant>)
    ensures r.Some? ==> exists i :: 0 <= i < |rows| && rows[i] == Row(key, r.value)
    ensures r.None? ==> forall i | 0 <= i < |rows| :: rows[i].key != key
  {
    if rows == [] then None
    else if rows[0].key == key then
      assert rows[0] == Row(key, rows[0].grant);
      Some(rows[0].grant)
    else
      var r := Find(rows[1..], key);
      assert forall i | 0 <= i < |rows[1..]| :: rows[1..][i] == rows[i + 1];
      assert r.None? ==> forall i | 1 <= i < |rows| :: rows[i] == rows[1..][i - 1];
      r
  }

  /** Insert in key order, replacing what the key had. */
  function Put(rows: seq<Row>, key: string, g: Grant): seq<Row> {
    if rows == [] then [Row(key, g)]
    else if rows[0].key == key then [Row(key, g)] + rows[1..]
    else if Less(key, rows[0].key) && Find(rows, key).None? then [Row(key, g)] + rows
    else [rows[0]] + Put(rows[1..], key, g)
  }

  function Remove(rows: seq<Row>, key: string): seq<Row> {
    if rows == [] then [] else if rows[0].key == key then rows[1..] else [rows[0]] + Remove(rows[1..], key)
  }

  predicate DistinctKeys(rows: seq<Row>) {
    forall i, j | 0 <= i < j < |rows| :: rows[i].key != rows[j].key
  }

  /** What is in the table after an insertion: the new row, and the old ones under other keys. */
  lemma {:induction false} PutHolds(rows: seq<Row>, key: string, g: Grant)
    requires DistinctKeys(rows)
    ensures DistinctKeys(Put(rows, key, g))
    ensures forall r :: r in Put(rows, key, g) <==> r == Row(key, g) || (r in rows && r.key != key)
    decreases |rows|
  {
    if rows != [] {
      var rest := rows[1..];
      assert DistinctKeys(rest);
      assert forall r | r in rest :: r.key != rows[0].key;
      if rows[0].key == key {
        PutFirst(rows, key, g);
      } else if Less(key, rows[0].key) && Find(rows, key).None? {
        PutBefore(rows, key, g);
      } else {
        PutHolds(rest, key, g);
        PutBehind(rows[0], rest, Put(rest, key, g), Row(key, g));
      }
    }
  }

  lemma {:induction false} PutFirst(rows: seq<Row>, key: string, g: Grant)
    requires DistinctKeys(rows) && rows != [] && rows[0].key == key
    ensures DistinctKeys([Row(key, g)] + rows[1..])
    ensures forall r :: r in [Row(key, g)] + rows[1..] <==> r == Row(key, g) || (r in rows && r.key != key)
  {
    assert rows == [rows[0]] + rows[1..];
  }

  lemma {:induction false} PutBefore(rows: seq<Row>, key: string, g: Grant)
    requires DistinctKeys(rows) && forall r | r in rows :: r.key != key
    ensures DistinctKeys([Row(key, g)] + rows)
    ensures forall r :: r in [Row(key, g)] + rows <==> r == Row(key, g) || (r in rows && r.key != key)
  {
  }

  lemma {:induction false} PutBehind(first: Row, rest: seq<Row>, put: seq<Row>, row: Row)
    requires DistinctKeys(put) && first.key != row.key && forall r | r in rest :: r.key != first.key
    requires forall r :: r in put <==> r == row || (r in rest && r.key != row.key)
    ensures DistinctKeys([first] + put)
    ensures forall r :: r in [first] + put <==> r == row || (r in [first] + rest && r.key != row.key)
  {
    assert forall r | r in put :: r.key != first.key;
  }

  lemma {:induction false} RemoveHolds(rows: seq<Row>, key: string)
    requires DistinctKeys(rows)
    ensures DistinctKeys(Remove(rows, key))
    ensures forall r :: r in Remove(rows, key) <==> r in rows && r.key != key
    decreases |rows|
  {
    if rows != [] {
      var rest := rows[1..];
      assert rows == [rows[0]] + rest;
      assert DistinctKeys(rest);
      assert forall r | r in rest :: r.key != rows[0].key;
      if rows[0].key != key {
        RemoveHolds(rest, key);
        RemoveBehind(rows[0], rest, Remove(rest, key), key);
      }
    }
  }

  lemma {:induction false} RemoveBehind(first: Row, rest: seq<Row>, removed: seq<Row>, key: string)
    requires DistinctKeys(removed) && first.key != key && forall r | r in rest :: r.key != first.key
    requires forall r :: r in removed <==> r in rest && r.key != key
    ensures DistinctKeys([first] + removed)
    ensures forall r :: r in [first] + removed <==> r in [first] + rest && r.key != key
  {
    assert forall r | r in removed :: r.key != first.key;
  }

  // ----- what a namespace keeps -----

  ghost predicate RowOk(ns: Namespace, r: Row) {
    r.key == r.grant.alias && IsPath(r.grant.storePath) && (ns.Aliased? ==> IsAlias(r.key))
  }

  /** What any table of grants is, whatever was recorded: each under its alias, no two under one. */
  ghost predicate Keyed(rows: seq<Row>) {
    DistinctKeys(rows) && forall r | r in rows :: r.key == r.grant.alias
  }

  /** Rows of different keys are shares of different folders, neither inside the other. */
  ghost predicate Apart(rows: seq<Row>) {
    forall r, s | r in rows && s in rows && r.key != s.key ::
      r.grant.nodeId != s.grant.nodeId && !Overlap(r.grant.storePath, s.grant.storePath)
  }

  ghost predicate WellKept(ns: Namespace, rows: seq<Row>) {
    && DistinctKeys(rows) && (forall r | r in rows :: RowOk(ns, r)) && Apart(rows)
    && (ns.SingleRoot? ==> |rows| <= 1)
  }

  /** The path overlaps no share of another folder. */
  ghost predicate ClearOfOthers(rows: seq<Row>, node: int, path: string) {
    forall r | r in rows && r.grant.nodeId != node :: !Overlap(r.grant.storePath, path)
  }

  ghost predicate HoldsNode(rows: seq<Row>, node: int) {
    exists r :: r in rows && r.grant.nodeId == node
  }

  /** The row of the folder, if the account has one. */
  ghost predicate RowOf(rows: seq<Row>, node: int, r: Row) {
    r in rows && r.grant.nodeId == node
  }

  lemma {:induction false} OneRowPerNode(ns: Namespace, rows: seq<Row>, node: int, r: Row, s: Row)
    requires WellKept(ns, rows) && RowOf(rows, node, r) && RowOf(rows, node, s)
    ensures r == s
  {
    var i :| 0 <= i < |rows| && rows[i] == r;
    var j :| 0 <= j < |rows| && rows[j] == s;
  }

  lemma {:induction false} FindIn(rows: seq<Row>, r: Row)
    requires DistinctKeys(rows) && r in rows
    ensures Find(rows, r.key) == Some(r.grant)
  {
    var i :| 0 <= i < |rows| && rows[i] == r;
    var j :| 0 <= j < |rows| && rows[j] == Row(r.key, Find(rows, r.key).value);
  }

  /** A new folder keeps the namespace well kept. */
  lemma {:induction false} NewRowKeeps(ns: Namespace, rows: seq<Row>, g: Grant)
    requires WellKept(ns, rows) && RowOk(ns, Row(g.alias, g)) && !HoldsNode(rows, g.nodeId)
    requires ClearOfOthers(rows, g.nodeId, g.storePath) && Find(rows, g.alias).None?
    requires ns.SingleRoot? ==> rows == []
    ensures WellKept(ns, Put(rows, g.alias, g))
  {
    PutHolds(rows, g.alias, g);
    var rows' := Put(rows, g.alias, g);
    forall r, s | r in rows' && s in rows' && r.key != s.key
      ensures r.grant.nodeId != s.grant.nodeId && !Overlap(r.grant.storePath, s.grant.storePath)
    {
      assert r in rows || r == Row(g.alias, g);
      assert s in rows || s == Row(g.alias, g);
    }
  }

  /** A denied folder that comes back under its own alias keeps the namespace well kept exactly when its
      path overlaps no other share. */
  lemma {:induction false} RevivedKeepsIff(ns: Namespace, rows: seq<Row>, old': Row, g: Grant)
    requires WellKept(ns, rows) && RowOf(rows, g.nodeId, old') && g.alias == old'.key && IsPath(g.storePath)
    ensures WellKept(ns, Put(rows, g.alias, g)) <==> ClearOfOthers(rows, g.nodeId, g.storePath)
    ensures g.storePath == old'.grant.storePath ==> ClearOfOthers(rows, g.nodeId, g.storePath)
  {
    PutHolds(rows, g.alias, g);
    var rows', row := Put(rows, g.alias, g), Row(g.alias, g);
    assert row in rows';
    SameLength(rows, g.alias, g);
    FindIn(rows, old');
    forall r | r in rows && r.grant.nodeId != g.nodeId ensures r.key != g.alias && r in rows' {
      if r.key == g.alias {
        FindIn(rows, r);
      }
    }
    if ClearOfOthers(rows, g.nodeId, g.storePath) {
      forall r, s | r in rows' && s in rows' && r.key != s.key
        ensures r.grant.nodeId != s.grant.nodeId && !Overlap(r.grant.storePath, s.grant.storePath)
      {
        assert r == row || r in rows;
        assert s == row || s in rows;
      }
    }
  }

  lemma {:induction false} SameLength(rows: seq<Row>, key: string, g: Grant)
    ensures Find(rows, key).Some? ==> |Put(rows, key, g)| == |rows|
    ensures Find(rows, key).None? ==> |Put(rows, key, g)| == |rows| + 1
    decreases |rows|
  {
    if rows != [] {
      SameLength(rows[1..], key, g);
    }
  }

  // ----- what adding a share comes to -----

  /** The alias a share is asked for under: the one given, or the folder's own name. */
  function AskedAlias(path: string, asked: Option<string>): string {
    if asked.Some? then asked.value else LastSegment(path)
  }

  /** What is decided by the grants there are, in key order: the folder's own comes back if it was denied,
      and one that overlaps stands in the way, whichever is found first. */
  function AgainstRows(rows: seq<Row>, offer: Grant): AddResult {
    if rows == [] then Granted(offer)
    else
      var g := rows[0].grant;
      if g.nodeId == offer.nodeId then
        if g.Denied().Some? then Granted(offer.(alias := g.alias)) else Refused(AlreadyGranted(g.alias))
      else if Overlap(g.storePath, offer.storePath) then Refused(Overlaps(g.storePath, g.alias))
      else AgainstRows(rows[1..], offer)
  }

  /** The answer to a request for a share. */
  function AddOutcome(ns: Namespace, rows: seq<Row>, nodeId: int, path: string, asked: Option<string>,
      rights: Rights): AddResult {
    var p := TrimEnd(path);
    var alias := AskedAlias(p, asked);
    if p == "" then Refused(BadRoot("/"))
    else if !IsPath(p) then Refused(BadRoot(p))
    else if ns == SingleRoot && rows != [] then Refused(OnlyRoot(rows[0].grant.storePath))
    else if ns == Aliased && !IsAlias(alias) then Refused(BadAlias(alias))
    else if ns == Aliased && Reserved(rows, alias, nodeId) then
      Refused(AliasTaken(alias, Find(rows, alias).value.storePath))
    else AgainstRows(rows, Grant(nodeId, if ns == SingleRoot then "" else alias, p, rights, false, false))
  }

  /** The alias is held, and not by a revoked grant of this folder. */
  predicate Reserved(rows: seq<Row>, alias: string, nodeId: int) {
    var held := Find(rows, alias);
    held.Some? && !(held.value.revoked && held.value.nodeId == nodeId)
  }

  /** A denied grant of the folder that comes before every grant its new path would overlap. */
  predicate RevivedAt(rows: seq<Row>, nodeId: int, path: string, i: nat)
    requires i < |rows|
  {
    && rows[i].grant.nodeId == nodeId && !rows[i].grant.Live()
    && forall j | 0 <= j < i :: rows[j].grant.nodeId != nodeId && !Overlap(rows[j].grant.storePath, path)
  }

  ghost predicate Revived(rows: seq<Row>, nodeId: int, path: string) {
    exists i: nat :: i < |rows| && RevivedAt(rows, nodeId, path, i)
  }

  /** The folder is new to the account, and its path overlaps none of the account's. */
  ghost predicate NewAndClear(rows: seq<Row>, nodeId: int, path: string) {
    forall r | r in rows :: r.grant.nodeId != nodeId && !Overlap(r.grant.storePath, path)
  }

  lemma {:induction false} AgainstRowsIs(rows: seq<Row>, offer: Grant)
    ensures var r := AgainstRows(rows, offer);
      && (r.Granted? <==>
           NewAndClear(rows, offer.nodeId, offer.storePath) || Revived(rows, offer.nodeId, offer.storePath))
      && (NewAndClear(rows, offer.nodeId, offer.storePath) ==> r == Granted(offer))
      && (r.Granted? && r.grant != offer ==> Revived(rows, offer.nodeId, offer.storePath))
      && (r.Granted? ==> r.grant == offer.(alias := r.grant.alias))
    ensures Revived(rows, offer.nodeId, offer.storePath) ==>
      exists row :: RowOf(rows, offer.nodeId, row) && !row.grant.Live()
        && AgainstRows(rows, offer) == Granted(offer.(alias := row.grant.alias))
    decreases |rows|
  {
    if rows != [] {
      var rest, g := rows[1..], rows[0].grant;
      assert rows == [rows[0]] + rest;
      AgainstRowsIs(rest, offer);
      if g.nodeId == offer.nodeId {
        assert RowOf(rows, offer.nodeId, rows[0]);
        assert !g.Live() ==> RevivedAt(rows, offer.nodeId, offer.storePath, 0);
        forall i: nat | i < |rows| && RevivedAt(rows, offer.nodeId, offer.storePath, i) ensures i == 0 {
        }
      } else if !Overlap(g.storePath, offer.storePath) {
        RevivedBehind(rows, offer.nodeId, offer.storePath);
      } else {
        forall i: nat | i < |rows| ensures !RevivedAt(rows, offer.nodeId, offer.storePath, i) {
        }
      }
    }
  }

  lemma {:induction false} RevivedBehind(rows: seq<Row>, nodeId: int, path: string)
    requires rows != [] && rows[0].grant.nodeId != nodeId && !Overlap(rows[0].grant.storePath, path)
    ensures Revived(rows, nodeId, path) <==> Revived(rows[1..], nodeId, path)
  {
    var rest := rows[1..];
    if Revived(rows, nodeId, path) {
      var i: nat :| i < |rows| && RevivedAt(rows, nodeId, path, i);
      assert RevivedAt(rest, nodeId, path, i - 1);
    }
    if Revived(rest, nodeId, path) {
      var i: nat :| i < |rest| && RevivedAt(rest, nodeId, path, i);
      assert RevivedAt(rows, nodeId, path, i + 1);
    }
  }

  /** A share is given exactly when the path is a store path below the root, a single-root account holds
      nothing yet, an aliased one's alias is an alias and free or this folder's own revoked one, and the
      folder is new and overlaps nothing, or comes back before anything it overlaps. */
  lemma {:induction false} GrantedIff(ns: Namespace, rows: seq<Row>, nodeId: int, path: string, asked: Option<string>,
      rights: Rights)
    ensures AddOutcome(ns, rows, nodeId, path, asked, rights).Granted? <==>
      && IsPath(TrimEnd(path))
      && (if ns == SingleRoot then rows == []
          else IsAlias(AskedAlias(TrimEnd(path), asked)) && !Reserved(rows, AskedAlias(TrimEnd(path), asked), nodeId))
      && (NewAndClear(rows, nodeId, TrimEnd(path)) || Revived(rows, nodeId, TrimEnd(path)))
  {
    hide IsPath, IsAlias, Reserved, NewAndClear, Revived, Overlap, AgainstRows;
    EmptyIsNoPath();
    var p := TrimEnd(path);
    AgainstRowsIs(rows, Grant(nodeId, if ns == SingleRoot then "" else AskedAlias(p, asked), p, rights, false, false));
  }

  lemma EmptyIsNoPath()
    ensures !IsPath("")
  {
  }

  // ----- any series of changes -----

  /** The changes to an account's grants; a mark is what the store's own record says of one. */
  datatype Change =
    | Adding(nodeId: int, path: string, asked: Option<string>, rights: Rights)
    | Renaming(from: string, new': string)
    | Revoking(alias: string)
    | Marking(alias: string, dormant: bool, revoked: bool)

  function Renamed(rows: seq<Row>, from: string, new': string): seq<Row> {
    if IsAlias(new') && Find(rows, new').None? && Find(rows, from).Some? then
      Put(Remove(rows, from), new', Find(rows, from).value.(alias := new'))
    else rows
  }

  /** The table after a change. */
  function Changed(ns: Namespace, rows: seq<Row>, c: Change): seq<Row> {
    match c
    case Adding(nodeId, path, asked, rights) =>
      var r := AddOutcome(ns, rows, nodeId, path, asked, rights);
      if r.Granted? then Put(rows, r.grant.alias, r.grant) else rows
    case Renaming(from, new') => Renamed(rows, from, new')
    case Revoking(alias) => Remove(rows, alias)
    case Marking(alias, dormant, revoked) =>
      if Find(rows, alias).None? then rows
      else Put(rows, alias, Find(rows, alias).value.(dormant := dormant, revoked := revoked))
  }

  /** A change that brings a folder back does so clear of the other shares. */
  ghost predicate ComesBackClear(ns: Namespace, rows: seq<Row>, c: Change) {
    c.Adding? && AddOutcome(ns, rows, c.nodeId, c.path, c.asked, c.rights).Granted? ==>
      ClearOfOthers(rows, c.nodeId, TrimEnd(c.path))
  }

  /** At the path it was recorded at, it does. */
  ghost predicate ComesBackThere(ns: Namespace, rows: seq<Row>, c: Change) {
    forall r | c.Adding? && RowOf(rows, c.nodeId, r) :: r.grant.storePath == TrimEnd(c.path)
  }

  /** Every table of the series is well kept. */
  ghost predicate AllKept(ns: Namespace, rows: seq<Row>, cs: seq<Change>)
    decreases |cs|
  {
    WellKept(ns, rows) && (cs != [] ==> AllKept(ns, Changed(ns, rows, cs[0]), cs[1..]))
  }

  ghost predicate AllBackClear(ns: Namespace, rows: seq<Row>, cs: seq<Change>)
    decreases |cs|
  {
    cs != [] ==> ComesBackClear(ns, rows, cs[0]) && AllBackClear(ns, Changed(ns, rows, cs[0]), cs[1..])
  }

  ghost predicate AllBackThere(ns: Namespace, rows: seq<Row>, cs: seq<Change>)
    decreases |cs|
  {
    cs != [] ==> ComesBackThere(ns, rows, cs[0]) && AllBackThere(ns, Changed(ns, rows, cs[0]), cs[1..])
  }

  /** What is given is the folder asked for; if the account has it already, a denied grant of it comes
      back under the alias it had. */
  lemma {:induction false} AddedIs(ns: Namespace, rows: seq<Row>, nodeId: int, path: string, asked: Option<string>,
      rights: Rights)
    requires Keyed(rows)
    ensures var r := AddOutcome(ns, rows, nodeId, path, asked, rights);
      r.Granted? ==>
        && r.grant.Live() && r.grant.nodeId == nodeId && r.grant.storePath == TrimEnd(path) && r.grant.rights == rights
        && (HoldsNode(rows, nodeId) ==>
              exists row :: RowOf(rows, nodeId, row) && !row.grant.Live() && r.grant.alias == row.key)
        && Keyed(Put(rows, r.grant.alias, r.grant))
  {
    hide AgainstRows, Overlap, IsAlias, IsPath, Less;
    GrantedIff(ns, rows, nodeId, path, asked, rights);
    var p, r := TrimEnd(path), AddOutcome(ns, rows, nodeId, path, asked, rights);
    if r.Granted? {
      var alias := if ns == SingleRoot then "" else AskedAlias(p, asked);
      AgainstRowsIs(rows, Grant(nodeId, alias, p, rights, false, false));
      PutHolds(rows, r.grant.alias, r.grant);
    }
  }

  lemma {:induction false} AddedKeepsIff(ns: Namespace, rows: seq<Row>, nodeId: int, path: string,
      asked: Option<string>, rights: Rights)
    requires WellKept(ns, rows)
    ensures var r := AddOutcome(ns, rows, nodeId, path, asked, rights);
      r.Granted? ==>
        && r.grant.Live() && r.grant.nodeId == nodeId && r.grant.storePath == TrimEnd(path) && r.grant.rights == rights
        && (WellKept(ns, Put(rows, r.grant.alias, r.grant)) <==> ClearOfOthers(rows, nodeId, TrimEnd(path)))
        && (if HoldsNode(rows, nodeId) then
              exists row :: RowOf(rows, nodeId, row) && !row.grant.Live() && r.grant.alias == row.key
            else ClearOfOthers(rows, nodeId, TrimEnd(path)))
  {
    hide AgainstRows, Overlap, IsAlias, IsPath, Less;
    GrantedIff(ns, rows, nodeId, path, asked, rights);
    var p, r := TrimEnd(path), AddOutcome(ns, rows, nodeId, path, asked, rights);
    var offer := Grant(nodeId, if ns == SingleRoot then "" else AskedAlias(p, asked), p, rights, false, false);
    if r.Granted? {
      AgainstRowsIs(rows, offer);
      if NewAndClear(rows, nodeId, p) {
        NewKeeps(ns, rows, offer);
      } else {
        var row :| RowOf(rows, nodeId, row) && !row.grant.Live() && r.grant == offer.(alias := row.grant.alias);
        RevivedHere(ns, rows, row, r.grant);
      }
    }
  }

  lemma {:induction false} NewKeeps(ns: Namespace, rows: seq<Row>, g: Grant)
    requires WellKept(ns, rows) && NewAndClear(rows, g.nodeId, g.storePath) && IsPath(g.storePath)
    requires if ns == SingleRoot then rows == [] else IsAlias(g.alias) && !Reserved(rows, g.alias, g.nodeId)
    ensures !HoldsNode(rows, g.nodeId) && ClearOfOthers(rows, g.nodeId, g.storePath)
    ensures WellKept(ns, Put(rows, g.alias, g))
  {
    NewRowKeeps(ns, rows, g);
  }

  lemma {:induction false} MarkedKeeps(ns: Namespace, rows: seq<Row>, row: Row, g: Grant)
    requires WellKept(ns, rows) && row in rows && g == row.grant.(dormant := g.dormant, revoked := g.revoked)
    ensures WellKept(ns, Put(rows, row.key, g))
  {
    assert RowOk(ns, row);
    RevivedHere(ns, rows, row, g);
  }

  /** A change keeps the table well kept exactly when, if it brings a folder back, it does so clear of the
      other shares. */
  lemma {:induction false} ChangedKeepsIff(ns: Namespace, rows: seq<Row>, c: Change)
    requires WellKept(ns, rows)
    ensures WellKept(ns, Changed(ns, rows, c)) <==> ComesBackClear(ns, rows, c)
  {
    hide AddOutcome, Put, Remove, IsAlias, ClearOfOthers, WellKept;
    match c {
      case Adding(nodeId, path, asked, rights) =>
        AddedKeepsIff(ns, rows, nodeId, path, asked, rights);
      case Renaming(from, new') =>
        if IsAlias(new') && Find(rows, new').None? && Find(rows, from).Some? {
          RenamedKeeps(ns, rows, from, Find(rows, from).value.(alias := new'));
        }
      case Revoking(alias) =>
        RemovedKeeps(ns, rows, alias);
      case Marking(alias, dormant, revoked) =>
        if Find(rows, alias).Some? {
          MarkedKeeps(ns, rows, Row(alias, Find(rows, alias).value),
            Find(rows, alias).value.(dormant := dormant, revoked := revoked));
        }
    }
  }

  /** Over any series of changes the tables are all well kept exactly when every folder that came back did
      so clear of the other shares; coming back at the recorded path is enough. */
  lemma {:induction false} RunKeepsIff(ns: Namespace, rows: seq<Row>, cs: seq<Change>)
    requires WellKept(ns, rows)
    ensures AllKept(ns, rows, cs) <==> AllBackClear(ns, rows, cs)
    ensures AllBackThere(ns, rows, cs) ==> AllKept(ns, rows, cs)
    decreases |cs|
  {
    hide WellKept, Changed, ComesBackClear, ComesBackThere;
    if cs != [] {
      ChangedKeepsIff(ns, rows, cs[0]);
      if ComesBackThere(ns, rows, cs[0]) {
        BackThereIsClear(ns, rows, cs[0]);
      }
      if WellKept(ns, Changed(ns, rows, cs[0])) {
        RunKeepsIff(ns, Changed(ns, rows, cs[0]), cs[1..]);
      }
    }
  }

  lemma {:induction false} BackThereIsClear(ns: Namespace, rows: seq<Row>, c: Change)
    requires WellKept(ns, rows) && ComesBackThere(ns, rows, c)
    ensures ComesBackClear(ns, rows, c)
  {
    hide AddOutcome, Overlap, IsAlias, Less;
    if c.Adding? {
      AddedKeepsIff(ns, rows, c.nodeId, c.path, c.asked, c.rights);
      if row :| RowOf(rows, c.nodeId, row) {
        forall r | r in rows && r.grant.nodeId != c.nodeId ensures !Overlap(r.grant.storePath, TrimEnd(c.path)) {
          assert r.key != row.key by {
            if r.key == row.key {
              FindIn(rows, r);
              FindIn(rows, row);
            }
          }
        }
      }
    }
  }

  /** A folder that was taken away from /x comes back inside another share of the account: the search ends
      at its own grant, before the one of /y that its new path lies in. */
  lemma {:induction false} RevivedInside()
    ensures var rows := [Row("a", Grant(1, "a", "/x", Ro, true, false)),
      Row("b", Grant(2, "b", "/y", Ro, false, false))];
      && WellKept(Aliased, rows)
      && AddOutcome(Aliased, rows, 1, "/y/z", Some("c"), Rw) == Granted(Grant(1, "a", "/y/z", Rw, false, false))
      && !WellKept(Aliased, Changed(Aliased, rows, Adding(1, "/y/z", Some("c"), Rw)))
  {
    hide WellKept, AddOutcome, Put;
    TwoShares();
    InsideGranted();
    var a, b := Row("a", Grant(1, "a", "/x", Ro, true, false)), Row("b", Grant(2, "b", "/y", Ro, false, false));
    var back := Row("a", Grant(1, "a", "/y/z", Rw, false, false));
    assert Changed(Aliased, [a, b], Adding(1, "/y/z", Some("c"), Rw)) == [back, b];
    assert back in [back, b] && b in [back, b];
    NotKept([back, b], back, b);
  }

  lemma NotKept(rows: seq<Row>, r: Row, s: Row)
    requires r in rows && s in rows && r.key != s.key && Overlap(r.grant.storePath, s.grant.storePath)
    ensures !WellKept(Aliased, rows)
  {
  }

  lemma {:induction false} TwoShares()
    ensures WellKept(Aliased,
      [Row("a", Grant(1, "a", "/x", Ro, true, false)), Row("b", Grant(2, "b", "/y", Ro, false, false))])
  {
    assert IsAlias("a") && IsAlias("b") && IsPath("/x") && IsPath("/y") && !Overlap("/x", "/y") && !Overlap("/y", "/x");
    hide IsAlias, IsPath, Overlap;
  }

  lemma {:induction false} InsideGranted()
    ensures var rows := [Row("a", Grant(1, "a", "/x", Ro, true, false)),
      Row("b", Grant(2, "b", "/y", Ro, false, false))];
      var g := Grant(1, "a", "/y/z", Rw, false, false);
      && AddOutcome(Aliased, rows, 1, "/y/z", Some("c"), Rw) == Granted(g)
      && Put(rows, "a", g) == [Row("a", g), Row("b", Grant(2, "b", "/y", Ro, false, false))]
  {
    var a, b := Row("a", Grant(1, "a", "/x", Ro, true, false)), Row("b", Grant(2, "b", "/y", Ro, false, false));
    var rows, none: seq<Row> := [a, b], [];
    assert rows[1..] == [b] && [b][1..] == none;
    assert Find(none, "c").None? && Find([b], "c").None? && Find(rows, "c").None?;
    assert IsAlias("c") && IsPath("/y/z") && TrimEnd("/y/z") == "/y/z";
    hide IsAlias, IsPath, TrimEnd, Overlap, Less;
  }

  /** The row of the i-th grant, no later one being under its alias. */
  ghost predicate IsLastOf(grants: seq<Grant>, i: nat, row: Row) {
    i < |grants| && row == Row(grants[i].alias, grants[i])
      && forall j | i < j < |grants| :: grants[j].alias != row.key
  }

  ghost predicate IsLast(grants: seq<Grant>, row: Row) {
    exists i: nat :: IsLastOf(grants, i, row)
  }

  lemma {:induction false} LastOfNext(grants: seq<Grant>, n: nat, row: Row)
    requires n < |grants|
    ensures IsLast(grants[..n + 1], row) <==>
      row == Row(grants[n].alias, grants[n])
        || (row.key != grants[n].alias && IsLast(grants[..n], row))
  {
    var more, some := grants[..n + 1], grants[..n];
    assert more[n] == grants[n];
    assert forall k: nat | k < n :: more[k] == some[k];
    if IsLast(more, row) {
      var k: nat :| IsLastOf(more, k, row);
      if k < n {
        assert IsLastOf(some, k, row) && more[n].alias != row.key;
      }
    }
    if row.key != grants[n].alias && IsLast(some, row) {
      var k: nat :| IsLastOf(some, k, row);
      assert IsLastOf(more, k, row);
    }
    if row == Row(grants[n].alias, grants[n]) {
      assert IsLastOf(more, n, row);
    }
  }

  lemma {:induction false} LastOfMore(grants: seq<Grant>, n: nat, rows: seq<Row>)
    requires n < |grants| && Keyed(rows)
    requires forall row :: row in rows <==> IsLast(grants[..n], row)
    ensures var rows' := Put(rows, grants[n].alias, grants[n]);
      Keyed(rows') && forall row :: row in rows' <==> IsLast(grants[..n + 1], row)
  {
    hide Put, IsLast;
    var g := grants[n];
    PutHolds(rows, g.alias, g);
    forall row ensures IsLast(grants[..n + 1], row) <==>
      row == Row(g.alias, g) || (row.key != g.alias && IsLast(grants[..n], row))
    {
      LastOfNext(grants, n, row);
    }
  }

  /** An account's grants, by alias. */
  class Grants {
    var rows: seq<Row>

    ghost predicate Valid(ns: Namespace)
      reads this
    {
      WellKept(ns, rows)
    }

    constructor ()
      ensures rows == [] && forall ns :: Valid(ns)
    {
      rows := [];
    }

    /** A table as it was recorded, refusing nothing: of the grants under one alias, the last. */
    constructor FromRows(grants: seq<Grant>)
      ensures Keyed(rows)
      ensures forall row :: row in rows <==> IsLast(grants, row)
    {
      var loaded: seq<Row> := [];
      var i := 0;
      while i < |grants|
        invariant i <= |grants| && Keyed(loaded)
        invariant forall row :: row in loaded <==> IsLast(grants[..i], row)
      {
        LastOfMore(grants, i, loaded);
        loaded := Put(loaded, grants[i].alias, grants[i]);
        i := i + 1;
      }
      assert grants[..i] == grants;
      rows := loaded;
    }

    /** Add a share, or bring one back that was taken away, under the alias it had. A refusal changes
        nothing; after a grant the namespace is well kept exactly when its path overlaps no other share,
        as it does not at the path the folder was recorded at. */
    method Add(ns: Namespace, nodeId: int, path: string, asked: Option<string>, rights: Rights) returns (r: AddResult)
      requires Keyed(rows)
      modifies this
      ensures Keyed(rows)
      ensures r == AddOutcome(ns, old(rows), nodeId, path, asked, rights)
      ensures rows == Changed(ns, old(rows), Adding(nodeId, path, asked, rights))
      ensures r.Granted? ==>
        && r.grant.Live() && r.grant.nodeId == nodeId && r.grant.storePath == TrimEnd(path) && r.grant.rights == rights
        && (HoldsNode(old(rows), nodeId) ==>
              exists row :: RowOf(old(rows), nodeId, row) && !row.grant.Live() && r.grant.alias == row.key)
      ensures old(Valid(ns)) ==>
        (Valid(ns) <==> (r.Granted? ==> ClearOfOthers(old(rows), nodeId, TrimEnd(path))))
    {
      AddedIs(ns, rows, nodeId, path, asked, rights);
      if Valid(ns) {
        AddedKeepsIff(ns, rows, nodeId, path, asked, rights);
      }
      hide WellKept, Overlap, Put, IsAlias, ClearOfOthers, Keyed;
      var storePath := TrimEnd(path);
      if storePath == "" || storePath == "/" {
        return Refused(BadRoot("/"));
      }
      if storePath[0] != '/' || HasEmptySegment(storePath) {
        return Refused(BadRoot(storePath));
      }
      if ns == SingleRoot && rows != [] {
        return Refused(OnlyRoot(rows[0].grant.storePath));
      }
      var alias := AskedAlias(storePath, asked);
      if ns == Aliased {
        if !IsAlias(alias) {
          return Refused(BadAlias(alias));
        }
        var held := Find(rows, alias);
        if held.Some? && !(held.value.revoked && held.value.nodeId == nodeId) {
          return Refused(AliasTaken(alias, held.value.storePath));
        }
      }
      r := Against(Grant(nodeId, if ns == SingleRoot then "" else alias, storePath, rights, false, false));
      if r.Granted? {
        rows := Put(rows, r.grant.alias, r.grant);
      }
    }

    /** Look through the grants for the folder's own and for one that overlaps. */
    method Against(offer: Grant) returns (r: AddResult)
      ensures r == AgainstRows(rows, offer)
    {
      hide Overlap;
      var i := 0;
      while i < |rows|
        invariant i <= |rows| && AgainstRows(rows, offer) == AgainstRows(rows[i..], offer)
      {
        var g := rows[i].grant;
        assert rows[i..][0] == rows[i] && rows[i..][1..] == rows[i + 1..];
        if g.nodeId == offer.nodeId {
          if g.Denied().Some? {
            return Granted(offer.(alias := g.alias));
          }
          return Refused(AlreadyGranted(g.alias));
        }
        if Overlap(g.storePath, offer.storePath) {
          return Refused(Overlaps(g.storePath, g.alias));
        }
        i := i + 1;
      }
      return Granted(offer);
    }

    /** Change an alias: the grant moves to the new key, and nothing else changes. */
    method Rename(from: string, new': string, ghost ns: Namespace) returns (r: AddResult)
      requires Keyed(rows)
      modifies this
      ensures Keyed(rows) && rows == Changed(ns, old(rows), Renaming(from, new')) && (old(Valid(ns)) ==> Valid(ns))
      ensures r.Granted? <==> IsAlias(new') && Find(old(rows), new').None? && Find(old(rows), from).Some?
      ensures r.Granted? ==>
        && r.grant == Find(old(rows), from).value.(alias := new')
        && forall row :: row in rows <==> row == Row(new', r.grant) || (row in old(rows) && row.key != from)
    {
      if !IsAlias(new') {
        return Refused(BadAlias(new'));
      }
      var held := Find(rows, new');
      if held.Some? {
        return Refused(AliasTaken(new', held.value.storePath));
      }
      var found := Find(rows, from);
      if found.None? {
        return Refused(BadAlias(from));
      }
      var g := found.value.(alias := new');
      RenamedHolds(rows, from, g);
      if Valid(ns) {
        RenamedKeeps(ns, rows, from, g);
      }
      rows := Put(Remove(rows, from), new', g);
      return Granted(g);
    }

    method Revoke(alias: string, ghost ns: Namespace) returns (g: Option<Grant>)
      requires Keyed(rows)
      modifies this
      ensures Keyed(rows) && g == Find(old(rows), alias) && rows == Changed(ns, old(rows), Revoking(alias))
      ensures old(Valid(ns)) ==> Valid(ns)
      ensures forall row :: row in rows <==> row in old(rows) && row.key != alias
    {
      g := Find(rows, alias);
      RemoveHolds(rows, alias);
      if Valid(ns) {
        RemovedKeeps(ns, rows, alias);
      }
      rows := Remove(rows, alias);
    }
  }

  lemma {:induction false} RevivedHere(ns: Namespace, rows: seq<Row>, row: Row, back: Grant)
    requires WellKept(ns, rows) && RowOf(rows, back.nodeId, row) && back.alias == row.grant.alias
    requires IsPath(back.storePath)
    ensures WellKept(ns, Put(rows, back.alias, back)) <==> ClearOfOthers(rows, back.nodeId, back.storePath)
    ensures (exists r :: RowOf(rows, back.nodeId, r) && r.grant.storePath == back.storePath) ==>
      ClearOfOthers(rows, back.nodeId, back.storePath)
    ensures HoldsNode(rows, back.nodeId) && back.alias == row.key
  {
    assert RowOk(ns, row);
    RevivedKeepsIff(ns, rows, row, back);
    if r :| RowOf(rows, back.nodeId, r) && r.grant.storePath == back.storePath {
      OneRowPerNode(ns, rows, back.nodeId, row, r);
    }
  }

  lemma {:induction false} RemovedKeeps(ns: Namespace, rows: seq<Row>, key: string)
    requires WellKept(ns, rows)
    ensures WellKept(ns, Remove(rows, key))
    ensures forall r :: r in Remove(rows, key) <==> r in rows && r.key != key
  {
    RemoveHolds(rows, key);
    RemoveShorter(rows, key);
  }

  lemma {:induction false} RemoveShorter(rows: seq<Row>, key: string)
    ensures |Remove(rows, key)| <= |rows| && (Find(rows, key).Some? ==> |Remove(rows, key)| + 1 == |rows|)
    decreases |rows|
  {
    if rows != [] {
      RemoveShorter(rows[1..], key);
    }
  }

  lemma {:induction false} RenamedHolds(rows: seq<Row>, from: string, g: Grant)
    requires Keyed(rows) && Find(rows, g.alias).None?
    ensures Keyed(Put(Remove(rows, from), g.alias, g))
    ensures forall r :: r in Put(Remove(rows, from), g.alias, g) <==>
      r == Row(g.alias, g) || (r in rows && r.key != from)
  {
    RemoveHolds(rows, from);
    PutHolds(Remove(rows, from), g.alias, g);
    assert forall r | r in rows :: r.key != g.alias;
  }

  lemma {:induction false} RenamedKeeps(ns: Namespace, rows: seq<Row>, from: string, g: Grant)
    requires WellKept(ns, rows) && IsAlias(g.alias) && Find(rows, g.alias).None? && Find(rows, from).Some?
    requires g == Find(rows, from).value.(alias := g.alias)
    ensures WellKept(ns, Put(Remove(rows, from), g.alias, g))
    ensures forall r :: r in Put(Remove(rows, from), g.alias, g) <==>
      r == Row(g.alias, g) || (r in rows && r.key != from)
  {
    var was := Row(from, Find(rows, from).value);
    var rest := Remove(rows, from);
    assert was in rows;
    RemovedKeeps(ns, rows, from);
    RemoveShorter(rows, from);
    PutHolds(rest, g.alias, g);
    SameLength(rest, g.alias, g);
    assert forall r | r in rows :: r.key != g.alias;
    assert Find(rest, g.alias).None?;
    assert !HoldsNode(rest, g.nodeId) by {
      if r :| r in rest && r.grant.nodeId == g.nodeId {
        OneRowPerNode(ns, rows, g.nodeId, was, r);
      }
    }
    var rows' := Put(rest, g.alias, g);
    assert RowOk(ns, was);
    forall r, s | r in rows' && s in rows' && r.key != s.key
      ensures r.grant.nodeId != s.grant.nodeId && !Overlap(r.grant.storePath, s.grant.storePath)
    {
      assert r == Row(g.alias, g) || r in rest;
      assert s == Row(g.alias, g) || s in rest;
    }
  }

  // ----- views -----

  datatype Resolved =
    | Root
    | In(storePath: string, rights: Rights, alias: string, nodeId: int)
    | Forbidden(alias: string, why: Denial)
    | NotFound

  /** One connection's account; the owner of the store has none. */
  datatype View = View(account: Option<string>, ns: Namespace, rows: seq<Row>)
  {
    predicate IsAdmin() {
      account.None?
    }

    ghost predicate Valid() {
      WellKept(ns, rows)
    }

    /** The store path a path of this account names. */
    function ToStore(viewPath: string): Resolved
      requires viewPath != "" && viewPath[0] == '/'
    {
      var trimmed := TrimEnd(viewPath);
      var p := if trimmed == "" then "/" else trimmed;
      if IsAdmin() then In(p, Rw, "", 0)
      else match ns
        case SingleRoot =>
          if rows == [] then Forbidden("", Revoked)
          else
            var g := rows[0].grant;
            if !g.Live() then Forbidden("", g.Denied().value)
            else In(if p == "/" then g.storePath else g.storePath + p, g.rights, "", g.nodeId)
        case Aliased =>
          if p == "/" then Root
          else
            var rest := p[1..];
            var alias := FirstSegment(rest);
            var found := Find(rows, alias);
            if found.None? then NotFound
            else if !found.value.Live() then Forbidden(alias, found.value.Denied().value)
            else In(found.value.storePath + rest[|alias|..], found.value.rights, alias, found.value.nodeId)
    }

    /** The first grant whose subtree holds a store path. */
    function GrantFor(storePath: string): Option<Grant> {
      FirstHolding(rows, storePath)
    }

    /** A store path in the account's own terms: the alias of the share that holds it, and the rest. */
    function ToView(storePath: string): Option<string> {
      if IsAdmin() then Some(storePath)
      else
        var g := GrantFor(storePath);
        if g.None? || !g.value.Live() then None
        else
          var tail := storePath[|g.value.storePath|..];
          match ns
          case SingleRoot => Some(if tail == "" then "/" else tail)
          case Aliased => Some("/" + g.value.alias + tail)
    }
  }

  function FirstSegment(p: string): (a: string)
    ensures a <= p && '/' !in a && (|a| < |p| ==> p[|a|] == '/')
  {
    if p == "" || p[0] == '/' then "" else [p[0]] + FirstSegment(p[1..])
  }

  function FirstHolding(rows: seq<Row>, storePath: string): (g: Option<Grant>)
    ensures g.Some? ==> (exists r :: r in rows && r.grant == g.value) && Contains(g.value.storePath, storePath)
    ensures g.None? ==> forall r | r in rows :: !Contains(r.grant.storePath, storePath)
  {
    if rows == [] then None
    else if Contains(rows[0].grant.storePath, storePath) then Some(rows[0].grant)
    else
      assert rows == [rows[0]] + rows[1..];
      FirstHolding(rows[1..], storePath)
  }

  /** At most one share holds a path, so the first found is the one. */
  lemma {:induction false} HolderIs(ns: Namespace, rows: seq<Row>, r: Row, storePath: string)
    requires WellKept(ns, rows) && r in rows && Contains(r.grant.storePath, storePath)
    ensures FirstHolding(rows, storePath) == Some(r.grant)
  {
    var g := FirstHolding(rows, storePath).value;
    var s :| s in rows && s.grant == g;
    SharedMeansOverlap(r.grant.storePath, g.storePath, storePath);
    assert s.key == r.key;
    FindIn(rows, r);
    FindIn(rows, s);
  }

  lemma {:induction false} FirstSegmentIs(a: string, tail: string)
    requires '/' !in a && (tail != "" ==> tail[0] == '/')
    ensures FirstSegment(a + tail) == a
    decreases |a|
  {
    if a != "" {
      assert (a + tail)[0] == a[0] && (a + tail)[1..] == a[1..] + tail;
      assert a[0] in a;
      FirstSegmentIs(a[1..], tail);
    } else {
      assert a + tail == tail;
    }
  }

  /** Every store path this account sees comes back to itself. */
  lemma {:induction false} StoreViewStore(v: View, storePath: string)
    requires v.Valid() && IsPath(storePath) && v.ToView(storePath).Some?
    ensures var p := v.ToView(storePath).value;
      p != "" && p[0] == '/' && v.ToStore(p).In? && v.ToStore(p).storePath == storePath
    ensures !v.IsAdmin() ==> v.ToStore(v.ToView(storePath).value).rights == v.GrantFor(storePath).value.rights
  {
    if !v.IsAdmin() {
      var g := v.GrantFor(storePath).value;
      var r :| r in v.rows && r.grant == g;
      var tail := storePath[|g.storePath|..];
      assert storePath == g.storePath + tail && RowOk(v.ns, r);
      if v.ns.Aliased? {
        AliasedBack(v, r, tail);
      } else {
        assert v.rows[0] == r;
        assert tail != "" ==> tail[|tail| - 1] == storePath[|storePath| - 1];
        assert g.storePath + "" == g.storePath;
      }
    }
  }

  lemma {:induction false} AliasedBack(v: View, r: Row, tail: string)
    requires v.Valid() && !v.IsAdmin() && v.ns.Aliased? && r in v.rows && r.grant.Live()
    requires tail == "" || (tail[0] == '/' && tail[|tail| - 1] != '/')
    ensures v.ToStore("/" + r.key + tail) == In(r.grant.storePath + tail, r.grant.rights, r.key, r.grant.nodeId)
  {
    var p := "/" + r.key + tail;
    assert RowOk(v.ns, r);
    assert p[|p| - 1] != '/' by {
      if tail == "" {
        assert p[|p| - 1] == r.key[|r.key| - 1];
        assert r.key[|r.key| - 1] in r.key;
      } else {
        assert p[|p| - 1] == tail[|tail| - 1];
      }
    }
    assert p[1..] == r.key + tail;
    FirstSegmentIs(r.key, tail);
    assert (r.key + tail)[|r.key|..] == tail;
    FindIn(v.rows, r);
  }

  lemma {:induction false} AliasedForth(v: View, p: string)
    requires v.Valid() && !v.IsAdmin() && v.ns.Aliased? && IsPath(p) && v.ToStore(p).In?
    ensures v.ToView(v.ToStore(p).storePath) == Some(p)
  {
    var rest := p[1..];
    var alias := FirstSegment(rest);
    var g := Find(v.rows, alias).value;
    var tail := rest[|alias|..];
    assert Row(alias, g) in v.rows;
    assert RowOk(v.ns, Row(alias, g));
    hide WellKept, Contains, Less, FirstSegment;
    ContainsBelow(g.storePath, tail);
    HolderIs(v.ns, v.rows, Row(alias, g), g.storePath + tail);
    assert (g.storePath + tail)[|g.storePath|..] == tail;
    assert "/" + alias + tail == p;
  }

  lemma {:induction false} SingleForth(v: View, p: string)
    requires v.Valid() && !v.IsAdmin() && v.ns.SingleRoot? && (IsPath(p) || p == "/") && v.ToStore(p).In?
    ensures v.ToView(v.ToStore(p).storePath) == Some(p)
  {
    hide WellKept, Contains;
    TrimRoot();
    var r := v.rows[0];
    var tail := if p == "/" then "" else p;
    assert r.grant.storePath + "" == r.grant.storePath;
    ContainsBelow(r.grant.storePath, tail);
    HolderIs(v.ns, v.rows, r, r.grant.storePath + tail);
    assert (r.grant.storePath + tail)[|r.grant.storePath|..] == tail;
  }

  lemma TrimRoot()
    ensures TrimEnd("/") == ""
  {
    var p := "/";
    assert p[..0] == "" && TrimEnd("") == "";
  }

  /** Every path of the account that names something visible is the path it is seen as. */
  lemma {:induction false} ViewStoreView(v: View, p: string)
    requires v.Valid() && (IsPath(p) || p == "/") && v.ToStore(p).In?
    ensures v.ToView(v.ToStore(p).storePath) == Some(p)
  {
    TrimRoot();
    if !v.IsAdmin() {
      if v.ns.Aliased? {
        AliasedForth(v, p);
      } else {
        SingleForth(v, p);
      }
    }
  }

  /** So no store path has two view paths. */
  lemma {:induction false} OneViewPath(v: View, p: string, q: string)
    requires v.Valid() && (IsPath(p) || p == "/") && (IsPath(q) || q == "/")
    requires v.ToStore(p).In? && v.ToStore(q).In? && v.ToStore(p).storePath == v.ToStore(q).storePath
    ensures p == q
  {
    ViewStoreView(v, p);
    ViewStoreView(v, q);
  }

  lemma ContainsBelow(p: string, tail: string)
    requires tail == "" || tail[0] == '/'
    ensures Contains(p, p + tail)
  {
    if tail == "" {
      assert p + tail == p;
    } else {
      assert (p + tail)[|p|] == tail[0];
    }
  }
}
