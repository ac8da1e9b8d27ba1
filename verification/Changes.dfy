// The change feed: pages of the journal filtered by what the caller sees and
// masked where an object has moved out of the caller's reach.

module Changes {
  import opened Wrappers
  import opened Model
  import opened Access
  import opened PushSpec
  import opened Chain

  datatype Change = Change(
    seqNo: nat, oid: Id, col: Id, op: Op, rev: nat, hash: Hash, metaHash: Hash,
    meta: Option<Meta>, blob: Hash, size: int, deleted: bool, kind: string)

  datatype Page = Page(changes: seq<Change>, next: int, hasMore: bool, needReconcile: bool)

  function Clamp(limit: int): nat { if limit <= 0 then 200 else if limit > 500 then 500 else limit }

  // A journal row joined with the object as it is now.
  function Joined(t: Tables, e: Entry): Change
    requires e.oid in t.objects
  {
    var o := t.objects[e.oid];
    Change(e.seqNo, e.oid, e.col, e.op, e.rev, e.hash, e.metaHash, Some(o.meta), o.blob, o.size, o.deleted, o.kind)
  }

  // An object that now lives where the caller cannot read shows as deleted.
  function Masked(t: Tables, sc: Scope, c: Change): Change {
    if sc.UserScope? && c.oid in t.objects && t.objects[c.oid].col != c.col
       && Rank(AccessQ(t, sc.user, t.objects[c.oid].col)) < Rank(Read)
    then c.(op := Delete, deleted := true, meta := None, blob := "", size := 0)
    else c
  }

  predicate Selected(t: Tables, sc: Scope, since: int, col: Id, e: Entry) {
    e.seqNo > since && e.oid in t.objects && Visible(t, sc, e.col) && (col == "" || e.col == col)
  }

  // Every change after `since`, in journal order, without a limit.
  function Rows(t: Tables, j: seq<Entry>, sc: Scope, since: int, col: Id): seq<Change> {
    if j == [] then []
    else
      var rest := Rows(t, j[..|j| - 1], sc, since, col);
      var e := j[|j| - 1];
      if Selected(t, sc, since, col, e) then rest + [Masked(t, sc, Joined(t, e))] else rest
  }

  function GetChanges(t: Tables, sc: Scope, since: int, limit: int, col: Id): (p: Page)
    ensures since >= 0 ==> p.next >= 0
  {
    if since > HeadSeq(t.journal) then Page([], HeadSeq(t.journal), false, true)
    else
      Cut(Rows(t, t.journal, sc, since, col), since, Clamp(limit))
  }

  // The first n rows, where to go on from, and whether there is more.
  function Cut(rows: seq<Change>, since: int, n: nat): (p: Page)
    ensures since >= 0 ==> p.next >= 0
  {
    var cs := if |rows| > n then rows[..n] else rows;
    Page(cs, if cs == [] then since else cs[|cs| - 1].seqNo, |rows| > n, false)
  }

  // ---- what the rows are ---------------------------------------------------

  lemma {:induction false} RowsMembers(t: Tables, j: seq<Entry>, sc: Scope, since: int, col: Id)
    ensures forall e :: e in j && Selected(t, sc, since, col, e) ==> Masked(t, sc, Joined(t, e)) in Rows(t, j, sc, since, col)
    ensures forall c :: c in Rows(t, j, sc, since, col) ==>
      exists e :: e in j && Selected(t, sc, since, col, e) && c == Masked(t, sc, Joined(t, e))
  {
    hide Masked, Joined;
    if j != [] {
      var head := j[..|j| - 1];
      var last := j[|j| - 1];
      RowsMembers(t, head, sc, since, col);
      assert j == head + [last];
      hide Selected;
      forall c | c in Rows(t, j, sc, since, col)
        ensures exists e :: e in j && Selected(t, sc, since, col, e) && c == Masked(t, sc, Joined(t, e))
      {
        if c in Rows(t, head, sc, since, col) {
          var e :| e in head && Selected(t, sc, since, col, e) && c == Masked(t, sc, Joined(t, e));
          assert e in j;
        } else {
          assert last in j;
        }
      }
    }
  }

  ghost predicate Ascending(cs: seq<Change>) { forall i, k :: 0 <= i < k < |cs| ==> cs[i].seqNo < cs[k].seqNo }

  // In sequence order, each past `since`.
  lemma {:induction false} RowsInOrder(t: Tables, j: seq<Entry>, sc: Scope, since: int, col: Id)
    requires InSeqOrder(j)
    ensures var rs := Rows(t, j, sc, since, col);
      Ascending(rs) && forall i :: 0 <= i < |rs| ==> since < rs[i].seqNo <= HeadSeq(j)
  {
    hide Visible, Masked;
    if j != [] {
      RowsInOrder(t, j[..|j| - 1], sc, since, col);
      if j[|j| - 1].oid in t.objects { MaskKeepsSeq(t, sc, j[|j| - 1]); }
    }
  }

  lemma {:induction false} NoRowsPastHead(t: Tables, j: seq<Entry>, sc: Scope, since: int, col: Id)
    requires InSeqOrder(j) && HeadSeq(j) <= since
    ensures Rows(t, j, sc, since, col) == []
  {
    if j != [] { NoRowsPastHead(t, j[..|j| - 1], sc, since, col); }
  }

  // Raising `since` only drops a prefix, of length n.
  lemma {:induction false} RowsAscend(t: Tables, j: seq<Entry>, sc: Scope, since: int, later: int, col: Id) returns (n: nat)
    requires InSeqOrder(j) && since <= later
    ensures var rs := Rows(t, j, sc, since, col);
      && n <= |rs| && rs[n..] == Rows(t, j, sc, later, col)
      && (forall i :: 0 <= i < n ==> rs[i].seqNo <= later)
      && (forall i :: n <= i < |rs| ==> rs[i].seqNo > later)
  {
    hide Visible, Masked, Joined;
    n := 0;
    if j != [] {
      var head := j[..|j| - 1];
      var last := j[|j| - 1];
      var rs := Rows(t, j, sc, since, col);
      if last.seqNo <= later {
        n := |rs|;
        RowsInOrder(t, j, sc, since, col);
        NoRowsPastHead(t, j, sc, later, col);
      } else {
        n := RowsAscend(t, head, sc, since, later, col);
        if last.oid in t.objects { MaskKeepsSeq(t, sc, last); }
        var before := Rows(t, head, sc, since, col);
        assert rs != before ==> rs[n..] == before[n..] + [rs[|rs| - 1]];
      }
    }
  }

  lemma MaskKeepsSeq(t: Tables, sc: Scope, e: Entry)
    requires e.oid in t.objects
    ensures Masked(t, sc, Joined(t, e)).seqNo == e.seqNo && Masked(t, sc, Joined(t, e)).oid == e.oid
    ensures Masked(t, sc, Joined(t, e)).col == e.col
  {}

  lemma NextPageIsTheRest(t: Tables, sc: Scope, since: int, limit: int, col: Id)
    requires InSeqOrder(t.journal) && since <= HeadSeq(t.journal)
    ensures var p := GetChanges(t, sc, since, limit, col);
      && p.changes + Rows(t, t.journal, sc, p.next, col) == Rows(t, t.journal, sc, since, col)
      && (p.hasMore ==> |p.changes| == Clamp(limit) && since < p.next)
      && (!p.hasMore ==> Rows(t, t.journal, sc, p.next, col) == [])
      && since <= p.next <= HeadSeq(t.journal)
  {
    var p := GetChanges(t, sc, since, limit, col);
    RowsInOrder(t, t.journal, sc, since, col);
    var rs := Rows(t, t.journal, sc, since, col);
    var k := |p.changes|;
    if k > 0 {
      assert p.next == rs[k - 1].seqNo;
      var n := RowsAscend(t, t.journal, sc, since, p.next, col);
      assert k < |rs| ==> rs[k].seqNo > rs[k - 1].seqNo;
      assert n == k;
      assert rs == rs[..k] + rs[k..];
    }
  }

  // The pages a caller reads by following NextSeq until HasMore is false.
  function Walk(t: Tables, sc: Scope, since: int, limit: int, col: Id): seq<Change>
    requires InSeqOrder(t.journal) && since <= HeadSeq(t.journal)
    decreases |Rows(t, t.journal, sc, since, col)|
  {
    var p := GetChanges(t, sc, since, limit, col);
    NextPageIsTheRest(t, sc, since, limit, col);
    if p.hasMore then p.changes + Walk(t, sc, p.next, limit, col) else p.changes
  }

  // Following NextSeq from any cursor reads every visible change exactly once
  // and in order, whatever the page size.
  lemma {:induction false} WalkIsComplete(t: Tables, sc: Scope, since: int, limit: int, col: Id)
    requires InSeqOrder(t.journal) && since <= HeadSeq(t.journal)
    ensures Walk(t, sc, since, limit, col) == Rows(t, t.journal, sc, since, col)
    ensures Ascending(Walk(t, sc, since, limit, col))
    decreases |Rows(t, t.journal, sc, since, col)|
  {
    var p := GetChanges(t, sc, since, limit, col);
    NextPageIsTheRest(t, sc, since, limit, col);
    RowsInOrder(t, t.journal, sc, since, col);
    if p.hasMore {
      WalkIsComplete(t, sc, p.next, limit, col);
    }
  }

  // No page shows an active caller the data of an object whose current
  // collection they cannot read.
  lemma PagesAreMasked(t: Tables, user: Id, since: int, limit: int, col: Id, c: Change)
    requires user != "" && ActiveUser(t, user) && c in GetChanges(t, UserScope(user), since, limit, col).changes
    requires c.oid in t.objects ==> Rank(AccessQ(t, user, t.objects[c.oid].col)) < Rank(Read)
    ensures c.op == Delete && c.deleted && c.meta == None && c.blob == "" && c.size == 0
  {
    RowsMembers(t, t.journal, UserScope(user), since, col);
    assert c in Rows(t, t.journal, UserScope(user), since, col);
    var e :| e in t.journal && Selected(t, UserScope(user), since, col, e) && c == Masked(t, UserScope(user), Joined(t, e));
    MaskKeepsSeq(t, UserScope(user), e);
    FilterAgreesExactly(t, user, e.col);
  }

  // A user who may read every collection gets the same feed as system tooling.
  lemma FullReaderSeesAll(t: Tables, user: Id, since: int, limit: int, col: Id)
    requires user != "" && ActiveUser(t, user)
    requires forall c :: c in t.collections ==> Rank(AccessQ(t, user, c)) >= Rank(Read)
    requires forall o :: o in t.objects ==> t.objects[o].col in t.collections
    ensures GetChanges(t, UserScope(user), since, limit, col) == GetChanges(t, All, since, limit, col)
  {
    FullReaderRows(t, t.journal, user, since, col);
  }

  lemma {:induction false} FullReaderRows(t: Tables, j: seq<Entry>, user: Id, since: int, col: Id)
    requires user != "" && ActiveUser(t, user)
    requires forall c :: c in t.collections ==> Rank(AccessQ(t, user, c)) >= Rank(Read)
    requires forall o :: o in t.objects ==> t.objects[o].col in t.collections
    ensures Rows(t, j, UserScope(user), since, col) == Rows(t, j, All, since, col)
  {
    hide AccessQ, FilterAccepts;
    if j != [] {
      FullReaderRows(t, j[..|j| - 1], user, since, col);
      var e := j[|j| - 1];
      if e.col in t.collections { FilterAgreesExactly(t, user, e.col); }
    }
  }

  // ---- what a row and a page show ------------------------------------------------

  predicate Shows(c: Change, e: Entry, o: Object) {
    && c.seqNo == e.seqNo && c.oid == e.oid && c.col == e.col && c.op == e.op && c.rev == e.rev
    && c.hash == e.hash && c.metaHash == e.metaHash
    && c.meta == Some(o.meta) && c.blob == o.blob && c.size == o.size && c.deleted == o.deleted && c.kind == o.kind
  }

  // The row of an entry shows the entry and the object as it is stored, in full,
  // unless the object has moved where the caller cannot read.
  lemma RowShowsObject(t: Tables, sc: Scope, since: int, col: Id, e: Entry)
    requires e in t.journal && e.oid in t.objects && e.seqNo > since && Visible(t, sc, e.col) && (col == "" || e.col == col)
    requires sc.All? || t.objects[e.oid].col == e.col || Rank(AccessQ(t, sc.user, t.objects[e.oid].col)) >= Rank(Read)
    ensures exists c :: c in Rows(t, t.journal, sc, since, col) && Shows(c, e, t.objects[e.oid])
  {
    hide AccessQ, FilterAccepts, Rows;
    RowsMembers(t, t.journal, sc, since, col);
    assert Selected(t, sc, since, col, e);
    var c := Masked(t, sc, Joined(t, e));
    assert c in Rows(t, t.journal, sc, since, col);
  }

  function OnlyIn(cs: seq<Change>, col: Id): seq<Change> {
    if cs == [] then []
    else
      var rest := OnlyIn(cs[..|cs| - 1], col);
      if cs[|cs| - 1].col == col then rest + [cs[|cs| - 1]] else rest
  }

  // Asking for one collection gives exactly its rows of the whole feed.
  lemma {:induction false} OneCollection(t: Tables, j: seq<Entry>, sc: Scope, since: int, col: Id)
    requires col != ""
    ensures Rows(t, j, sc, since, col) == OnlyIn(Rows(t, j, sc, since, ""), col)
  {
    hide AccessQ, Visible;
    if j != [] {
      OneCollection(t, j[..|j| - 1], sc, since, col);
      var e := j[|j| - 1];
      if Selected(t, sc, since, "", e) {
        var rest := Rows(t, j[..|j| - 1], sc, since, "");
        var c := Masked(t, sc, Joined(t, e));
        assert c.col == e.col;
        assert (rest + [c])[..|rest + [c]| - 1] == rest;
      }
    }
  }

  // A page holds what was asked for, 200 changes by default and 500 at most, and
  // says there is more only when it is full.
  lemma PageSize(t: Tables, sc: Scope, since: int, limit: int, col: Id)
    ensures var p := GetChanges(t, sc, since, limit, col);
      && |p.changes| <= 500 && (0 < limit ==> |p.changes| <= limit) && (limit <= 0 ==> |p.changes| <= 200)
      && (p.hasMore ==> |p.changes| == (if limit <= 0 then 200 else if limit <= 500 then limit else 500))
      && (since > HeadSeq(t.journal) <==> p.needReconcile)
      && (p.needReconcile ==> p.changes == [] && p.next == HeadSeq(t.journal) && !p.hasMore)
  {
    hide Rows;
  }
}
