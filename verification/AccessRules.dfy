/** Paths as segments, and the rules of a grant said of the account's rows. */
module AccessRules {
  import opened Text
  import opened Access

  // ----- segments -----

  predicate IsSegment(s: string) {
    s != "" && forall i | 0 <= i < |s| :: s[i] != '/'
  }

  ghost predicate AllSegments(ss: seq<string>) {
    forall i | 0 <= i < |ss| :: IsSegment(ss[i])
  }

  function Joined(ss: seq<string>): string {
    if ss == [] then "" else "/" + ss[0] + Joined(ss[1..])
  }

  lemma JoinedCons(s: string, rest: seq<string>)
    ensures Joined([s] + rest) == "/" + s + Joined(rest)
  {
    assert ([s] + rest)[1..] == rest;
  }

  lemma {:induction false} JoinedStarts(ss: seq<string>)
    ensures Joined(ss) == "" <==> ss == []
    ensures ss != [] ==> Joined(ss)[0] == '/'
  {
  }

  lemma CharBehind(s: string, s': string, x: string, y: string)
    requires s + x == s' + y && |s| < |s'|
    ensures x != "" && x[0] == s'[|s|]
  {
    assert (s + x)[|s|] == (s' + y)[|s|];
  }

  /** A segment ends where the next slash is. */
  lemma {:induction false} SameHead(s: string, s': string, x: string, y: string)
    requires IsSegment(s) && IsSegment(s') && s + x == s' + y
    requires (x == "" || x[0] == '/') && (y == "" || y[0] == '/')
    ensures s == s' && x == y
  {
    if |s| < |s'| {
      CharBehind(s, s', x, y);
    } else if |s'| < |s| {
      CharBehind(s', s, y, x);
    } else {
      assert (s + x)[..|s|] == s && (s' + y)[..|s|] == s' && (s + x)[|s|..] == x && (s' + y)[|s|..] == y;
    }
  }

  /** A path has one series of segments, and one that begins with another continues it. */
  lemma {:induction false} SegmentsPrefix(ss: seq<string>, tt: seq<string>, tail: string)
    requires AllSegments(ss) && AllSegments(tt) && Joined(tt) == Joined(ss) + tail && (tail == "" || tail[0] == '/')
    ensures ss <= tt && Joined(tt[|ss|..]) == tail
    decreases |ss|
  {
    if ss == [] {
      assert tt[0..] == tt && "" + tail == tail;
    } else {
      JoinedStarts(tt);
      var s, rest, t, more := ss[0], ss[1..], tt[0], tt[1..];
      JoinedStarts(rest);
      JoinedStarts(more);
      assert Joined(ss) + tail == "/" + (s + (Joined(rest) + tail));
      assert Joined(tt) == "/" + (t + Joined(more));
      assert ("/" + (s + (Joined(rest) + tail)))[1..] == s + (Joined(rest) + tail);
      assert ("/" + (t + Joined(more)))[1..] == t + Joined(more);
      SameHead(s, t, Joined(rest) + tail, Joined(more));
      SegmentsPrefix(rest, more, tail);
      assert ss == [s] + rest && tt == [t] + more;
    }
  }

  lemma {:induction false} JoinedConcat(ss: seq<string>, tt: seq<string>)
    ensures Joined(ss + tt) == Joined(ss) + Joined(tt)
    decreases |ss|
  {
    if ss == [] {
      assert ss + tt == tt;
    } else {
      assert (ss + tt)[0] == ss[0] && (ss + tt)[1..] == ss[1..] + tt;
      JoinedConcat(ss[1..], tt);
      assert "/" + ss[0] + (Joined(ss[1..]) + Joined(tt)) == "/" + ss[0] + Joined(ss[1..]) + Joined(tt);
    }
  }

  /** One path holds another exactly when its segments are the first of the other's. */
  lemma {:induction false} ContainsIff(ss: seq<string>, tt: seq<string>)
    requires AllSegments(ss) && AllSegments(tt)
    ensures Contains(Joined(ss), Joined(tt)) <==> ss <= tt
  {
    var outer, inner := Joined(ss), Joined(tt);
    if Contains(outer, inner) {
      var tail := inner[|outer|..];
      assert inner == outer + tail;
      SegmentsPrefix(ss, tt, tail);
    }
    if ss <= tt {
      var more := tt[|ss|..];
      assert tt == ss + more;
      JoinedConcat(ss, more);
      JoinedStarts(more);
      assert inner == outer + Joined(more);
      if more == [] {
        assert outer + "" == outer;
      }
    }
  }

  // ----- paths -----

  /** The segment at the front of a path, and what follows it. */
  lemma {:induction false} FirstOff(p: string, i: nat) returns (n: nat)
    requires i <= |p| && (i < |p| ==> p[i] != '/')
    ensures i <= n <= |p| && (n == |p| || p[n] == '/') && forall k | i <= k < n :: p[k] != '/'
    ensures i < |p| ==> i < n
    decreases |p| - i
  {
    n := i;
    if i < |p| {
      if i + 1 < |p| && p[i + 1] != '/' {
        n := FirstOff(p, i + 1);
      } else {
        n := i + 1;
      }
    }
  }

  lemma NoneBehind(p: string, n: nat)
    requires !HasEmptySegment(p) && n <= |p|
    ensures !HasEmptySegment(p[n..])
  {
    var rest := p[n..];
    forall i | 0 <= i < |rest| - 1 ensures !(rest[i] == '/' && rest[i + 1] == '/') {
      assert rest[i] == p[n + i] && rest[i + 1] == p[(n + i) + 1];
    }
  }

  /** A store path below the root is one or more segments, each behind a slash. */
  lemma {:induction false} PathSegments(p: string) returns (ss: seq<string>)
    requires IsPath(p)
    ensures ss != [] && AllSegments(ss) && Joined(ss) == p
    decreases |p|
  {
    assert p[1] != '/' by {
      if p[1] == '/' {
        assert HasEmptySegment(p);
      }
    }
    var n := FirstOff(p, 1);
    var s, rest := p[1..n], p[n..];
    assert IsSegment(s) && p == "/" + s + rest;
    if rest == "" {
      ss := [s];
      JoinedCons(s, []);
      assert [s] + [] == [s] && Joined([]) == "";
    } else {
      NoneBehind(p, n);
      assert rest[|rest| - 1] == p[|p| - 1];
      var more := PathSegments(rest);
      ss := [s] + more;
      JoinedCons(s, more);
    }
  }

  lemma {:induction false} JoinedIsPath(ss: seq<string>)
    requires ss != [] && AllSegments(ss)
    ensures IsPath(Joined(ss))
    decreases |ss|
  {
    var s, rest := ss[0], ss[1..];
    JoinedStarts(rest);
    var p, tail := Joined(ss), Joined(rest);
    assert p == "/" + s + tail;
    assert p[0] == '/' && (forall k | 0 <= k < |s| :: p[k + 1] == s[k]) && p[1] == s[0];
    assert forall k | 0 <= k < |tail| :: p[|s| + 1 + k] == tail[k];
    if rest != [] {
      JoinedIsPath(rest);
    }
    assert p[|p| - 1] == if tail == "" then s[|s| - 1] else tail[|tail| - 1];
    NoEmptySegment(s, tail);
  }

  lemma {:induction false} NoEmptySegment(s: string, tail: string)
    requires IsSegment(s) && (tail == "" || (tail[0] == '/' && !HasEmptySegment(tail)))
    ensures !HasEmptySegment("/" + s + tail)
  {
    var p := "/" + s + tail;
    forall i | 0 <= i < |p| - 1 ensures !(p[i] == '/' && p[i + 1] == '/') {
      if i < |s| {
        assert p[i + 1] == s[i];
      } else if i == |s| {
        assert p[i] == s[i - 1];
      } else {
        assert p[i] == tail[i - |s| - 1] && p[i + 1] == tail[(i - |s| - 1) + 1];
      }
    }
  }

  lemma {:induction false} PathIff(p: string)
    ensures IsPath(p) <==> exists ss: seq<string> :: ss != [] && AllSegments(ss) && Joined(ss) == p
  {
    if IsPath(p) {
      var ss := PathSegments(p);
    }
    if ss: seq<string> :| ss != [] && AllSegments(ss) && Joined(ss) == p {
      JoinedIsPath(ss);
    }
  }

  /** The name of a folder is its last segment. */
  lemma {:induction false} NameIsLast(front: string, s: string)
    requires IsSegment(s)
    ensures LastSegment(front + "/" + s) == s
    decreases |s|
  {
    var p := front + "/" + s;
    var init := s[..|s| - 1];
    assert s == init + [s[|s| - 1]] && p[..|p| - 1] == front + "/" + init;
    if init == "" {
      assert front + "/" + "" == front + "/";
      assert LastSegment(front + "/") == "";
    } else {
      NameIsLast(front, init);
    }
  }

  /** What goes from the end of a path is its slashes, and all of them. */
  lemma {:induction false} TrimIs(p: string)
    ensures TrimEnd(p) <= p && forall k | |TrimEnd(p)| <= k < |p| :: p[k] == '/'
    ensures TrimEnd(p) == "" || TrimEnd(p)[|TrimEnd(p)| - 1] != '/'
    decreases |p|
  {
    if p != "" && p[|p| - 1] == '/' {
      TrimIs(p[..|p| - 1]);
    }
  }

  /** A space, or a control character that sets one: tab, line feed, vertical tab, form feed, return. */
  predicate IsSpace(c: char) {
    c == ' ' || c == 9 as char || c == 10 as char || c == 11 as char || c == 12 as char || c == 13 as char
  }

  /** An alias is a segment other than the two relative ones, without NUL, and with no space at either end. */
  lemma {:induction false} AliasIff(a: string)
    ensures IsAlias(a) <==>
      && IsSegment(a) && a != ['.'] && a != ['.', '.'] && (forall i | 0 <= i < |a| :: a[i] != '\0')
      && !IsSpace(a[0]) && !IsSpace(a[|a| - 1])
  {
    assert '/' in a <==> exists i | 0 <= i < |a| :: a[i] == '/';
    assert '\0' in a <==> exists i | 0 <= i < |a| :: a[i] == '\0';
  }

  // ----- the answer to a request -----

  /** The first row, in the order of aliases, that is of the folder itself, or of one that overlaps it. */
  predicate FirstMet(rows: seq<Row>, nodeId: int, path: string, i: nat) {
    && i < |rows| && (rows[i].grant.nodeId == nodeId || Overlap(rows[i].grant.storePath, path))
    && forall j | 0 <= j < i :: rows[j].grant.nodeId != nodeId && !Overlap(rows[j].grant.storePath, path)
  }

  /** What it decides: a folder taken away comes back under its alias; any other is in the way. */
  function Met(g: Grant, offer: Grant): AddResult {
    if g.nodeId != offer.nodeId then Refused(Overlaps(g.storePath, g.alias))
    else if g.dormant || g.revoked then Granted(offer.(alias := g.alias))
    else Refused(AlreadyGranted(g.alias))
  }

  lemma {:induction false} AgainstIs(rows: seq<Row>, offer: Grant)
    ensures forall i: nat | FirstMet(rows, offer.nodeId, offer.storePath, i) ::
      AgainstRows(rows, offer) == Met(rows[i].grant, offer)
    ensures (forall i: nat | i < |rows| :: !FirstMet(rows, offer.nodeId, offer.storePath, i)) ==>
      AgainstRows(rows, offer) == Granted(offer)
    decreases |rows|
  {
    hide Overlap;
    if rows != [] {
      var rest, g := rows[1..], rows[0].grant;
      assert forall j | 0 <= j < |rest| :: rest[j] == rows[j + 1];
      AgainstIs(rest, offer);
      if g.nodeId == offer.nodeId || Overlap(g.storePath, offer.storePath) {
        assert FirstMet(rows, offer.nodeId, offer.storePath, 0);
      } else {
        MetBehind(rows, offer);
      }
    }
  }

  lemma {:induction false} MetBehind(rows: seq<Row>, offer: Grant)
    requires rows != [] && rows[0].grant.nodeId != offer.nodeId
    requires !Overlap(rows[0].grant.storePath, offer.storePath)
    ensures !FirstMet(rows, offer.nodeId, offer.storePath, 0)
    ensures forall i: nat | 0 < i ::
      FirstMet(rows, offer.nodeId, offer.storePath, i) <==> FirstMet(rows[1..], offer.nodeId, offer.storePath, i - 1)
    ensures forall i: nat ::
      FirstMet(rows[1..], offer.nodeId, offer.storePath, i) <==> FirstMet(rows, offer.nodeId, offer.storePath, i + 1)
  {
    hide Overlap;
    var rest := rows[1..];
    assert forall j | 0 <= j < |rest| :: rest[j] == rows[j + 1];
    assert forall j | 0 < j < |rows| :: rows[j] == rest[j - 1];
  }

  /** The alias is another folder's, or this one's and not revoked. */
  predicate TakenBy(row: Row, alias: string, nodeId: int) {
    row.key == alias && !(row.grant.revoked && row.grant.nodeId == nodeId)
  }

  /** What would be granted. */
  function Offered(ns: Namespace, nodeId: int, path: string, alias: string, rights: Rights): Grant {
    Grant(nodeId, if ns.SingleRoot? then "" else alias, path, rights, false, false)
  }

  /** Nothing but the rows of the folder and of those that overlap it decides any more. */
  ghost predicate Open(ns: Namespace, rows: seq<Row>, nodeId: int, path: string, alias: string) {
    IsPath(path) && if ns.SingleRoot? then rows == []
      else IsAlias(alias) && forall row | row in rows :: !TakenBy(row, alias, nodeId)
  }

  /** Every answer to a request, and when it is given. */
  lemma {:induction false} AddIs(ns: Namespace, rows: seq<Row>, nodeId: int, path: string, asked: Option<string>,
      rights: Rights)
    requires Keyed(rows)
    ensures var p, r := TrimEnd(path), AddOutcome(ns, rows, nodeId, path, asked, rights);
      var alias := if asked.Some? then asked.value else LastSegment(p);
      var offer := Offered(ns, nodeId, p, alias, rights);
      && (!IsPath(p) ==> r == Refused(BadRoot(if p == "" then "/" else p)))
      && (IsPath(p) && ns.SingleRoot? && rows != [] ==> r == Refused(OnlyRoot(rows[0].grant.storePath)))
      && (IsPath(p) && ns.Aliased? && !IsAlias(alias) ==> r == Refused(BadAlias(alias)))
      && (IsPath(p) && ns.Aliased? && IsAlias(alias) ==>
           forall row | row in rows && TakenBy(row, alias, nodeId) ::
             r == Refused(AliasTaken(alias, row.grant.storePath)))
      && (Open(ns, rows, nodeId, p, alias) ==>
           && (forall i: nat | FirstMet(rows, nodeId, p, i) :: r == Met(rows[i].grant, offer))
           && ((forall i: nat | i < |rows| :: !FirstMet(rows, nodeId, p, i)) ==> r == Granted(offer)))
  {
    hide IsPath, IsAlias, AgainstRows, FirstMet, LastSegment;
    EmptyIsNoPath();
    var p := TrimEnd(path);
    var alias := AskedAlias(p, asked);
    AgainstIs(rows, Offered(ns, nodeId, p, alias, rights));
    forall row | row in rows && row.key == alias ensures Find(rows, alias) == Some(row.grant) {
      FindIn(rows, row);
    }
    if Find(rows, alias).Some? {
      assert Row(alias, Find(rows, alias).value) in rows;
    }
  }

  // ----- the order of the table -----

  /** Up to place `k` two strings are the same, and there the first ends, or has the lower character. */
  predicate BeforeAt(a: string, b: string, k: nat) {
    k <= |a| && k < |b| && a[..k] == b[..k] && (k == |a| || a[k] < b[k])
  }

  ghost predicate Before(a: string, b: string) {
    exists k: nat :: BeforeAt(a, b, k)
  }

  lemma SameFirst(a: string, b: string, k: nat)
    requires 0 < k <= |a| && k <= |b| && a[..k] == b[..k]
    ensures a[0] == b[0] && a[1..][..k - 1] == b[1..][..k - 1]
  {
    assert a[0] == a[..k][0] && b[0] == b[..k][0];
    assert a[1..][..k - 1] == a[..k][1..] && b[1..][..k - 1] == b[..k][1..];
  }

  lemma {:induction false} BeforeTails(a: string, b: string)
    requires a != "" && b != "" && a[0] == b[0]
    ensures Before(a, b) <==> Before(a[1..], b[1..])
  {
    if Before(a[1..], b[1..]) {
      var k: nat :| BeforeAt(a[1..], b[1..], k);
      assert a[..k + 1] == [a[0]] + a[1..][..k] && b[..k + 1] == [b[0]] + b[1..][..k];
      assert BeforeAt(a, b, k + 1);
    }
    if Before(a, b) {
      var k: nat :| BeforeAt(a, b, k);
      SameFirst(a, b, k);
      assert BeforeAt(a[1..], b[1..], k - 1);
    }
  }

  lemma {:induction false} LessIff(a: string, b: string)
    ensures Less(a, b) <==> Before(a, b)
    decreases |a|
  {
    if b != "" && a != "" && a[0] == b[0] {
      LessIff(a[1..], b[1..]);
      BeforeTails(a, b);
    } else if b != "" {
      assert a[..0] == b[..0];
      assert Less(a, b) ==> BeforeAt(a, b, 0);
      if k: nat :| BeforeAt(a, b, k) && k > 0 {
        SameFirst(a, b, k);
      }
    }
  }

  /** Keys ascend. */
  ghost predicate InOrder(rows: seq<Row>) {
    forall i, j | 0 <= i < j < |rows| :: Less(rows[i].key, rows[j].key)
  }

  lemma {:induction false} LessLaws(a: string, b: string, c: string)
    ensures !Less(a, a)
    ensures Less(a, b) && Less(b, c) ==> Less(a, c)
    ensures a != b ==> Less(a, b) || Less(b, a)
    decreases |a|
  {
    if a != "" {
      LessLaws(a[1..], if b == "" then "" else b[1..], if c == "" then "" else c[1..]);
      assert a == [a[0]] + a[1..] && (b != "" ==> b == [b[0]] + b[1..]);
    }
  }

  /** The table stays in order. */
  lemma {:induction false} PutInOrder(rows: seq<Row>, key: string, g: Grant)
    requires InOrder(rows)
    ensures InOrder(Put(rows, key, g))
    decreases |rows|
  {
    hide Less;
    if rows != [] {
      var rest := rows[1..];
      assert rows == [rows[0]] + rest;
      assert forall i | 0 <= i < |rest| :: rest[i] == rows[i + 1];
      Distinct(rows);
      PutHolds(rows, key, g);
      LessLaws(key, rows[0].key, key);
      forall i | 0 <= i < |rest| ensures Less(key, rows[0].key) ==> Less(key, rest[i].key) {
        LessLaws(key, rows[0].key, rest[i].key);
      }
      if rows[0].key != key && !(Less(key, rows[0].key) && Find(rows, key).None?) {
        PutInOrder(rest, key, g);
        BehindFirst(rows, key, g);
      }
    }
  }

  lemma {:induction false} Distinct(rows: seq<Row>)
    requires InOrder(rows)
    ensures DistinctKeys(rows)
  {
    hide Less;
    forall i, j | 0 <= i < j < |rows| ensures rows[i].key != rows[j].key {
      LessLaws(rows[i].key, rows[j].key, rows[i].key);
    }
  }

  lemma {:induction false} BehindFirst(rows: seq<Row>, key: string, g: Grant)
    requires InOrder(rows) && rows != [] && rows[0].key != key
    requires !(Less(key, rows[0].key) && Find(rows, key).None?)
    requires InOrder(Put(rows[1..], key, g))
    ensures InOrder([rows[0]] + Put(rows[1..], key, g))
  {
    hide Less;
    var first, rest := rows[0], rows[1..];
    assert rows == [first] + rest;
    assert forall i | 0 <= i < |rest| :: rest[i] == rows[i + 1];
    Distinct(rows);
    Distinct(rest);
    PutHolds(rest, key, g);
    var put := Put(rest, key, g);
    forall r | r in put ensures Less(first.key, r.key) {
      if r != Row(key, g) {
        assert r in rest;
      } else if Find(rows, key).Some? {
        assert Row(key, Find(rows, key).value) in rows;
      } else {
        LessLaws(first.key, key, key);
      }
    }
  }
}
