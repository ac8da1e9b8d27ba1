// The device's pull loop, against an engine that nobody else writes meanwhile.

module Agent {
  import opened Wrappers
  import opened Model
  import opened Access
  import opened Chain
  import opened Changes
  import opened Sync
  import Gc
  import Server
  import Store

  class Agent {
    var replica: map<Id, Copy>
    var cursor: nat

    constructor ()
      ensures replica == map[] && cursor == 0
    {
      replica, cursor := map[], 0;
    }

    ghost function Idle(): Client
      reads this
    {
      Client(replica, cursor, None, None)
    }

    method Apply(ch: Change)
      modifies `replica
      ensures replica == ApplyChange(old(replica), ch)
    {
      if ch.op == Delete || ch.deleted {
        if ch.oid in replica { replica := replica - {ch.oid}; }
        return;
      }
      if ch.oid in replica {
        var existing := replica[ch.oid];
        if existing.rev >= ch.rev && existing.hash == ch.hash { return; }
      }
      replica := replica[ch.oid := CopyOf(ch)];
    }

    // Every change of a page is applied, in order.
    method ApplyChanges(p: Page, d: Id, ghost t: Tables)
      requires p.next >= 0
      requires ClientOk(t, d, Client(replica, cursor, Some(InFlight(p.changes, p.next, t.lastSeq, 0, false, false)), None))
      modifies `replica
      ensures ClientOk(t, d, PageRead(replica, cursor, p, t.lastSeq))
    {
      hide ClientOk, ApplyChange;
      for i := 0 to |p.changes|
        invariant ClientOk(t, d, Client(replica, cursor, Some(InFlight(p.changes, p.next, t.lastSeq, i, false, false)), None))
      {
        HandleKeepsClient(t, d, Client(replica, cursor, Some(InFlight(p.changes, p.next, t.lastSeq, i, false, false)), None), true);
        Apply(p.changes[i]);
      }
    }

    // Ack first, then SetCursor.
    method AckAndSave(st: Store.Engine, d: Id, p: Page)
      requires d in st.devices && cursor <= p.next <= HeadSeq(st.journal)
      requires Server.Inv(st.View()) && ClientOk(st.View(), d, PageRead(replica, cursor, p, st.lastSeq))
      modifies `cursor, st`acks
      ensures Server.Inv(st.View()) && ClientOk(st.View(), d, Idle()) && cursor == p.next
      ensures st.acks == if p.next > old(cursor) then Raised(old(st.acks), d, p.next) else old(st.acks)
    {
      hide Server.Inv, ClientOk, HeadSeq;
      AckThenSave(st.View(), d, replica, cursor, p);
      if p.next > cursor {
        AckRaises(st.View(), d, p.next);
        var ok := st.AckSeq(d, p.next);
        assert ok;
        cursor := p.next;
      }
    }

    // One turn of the pull loop: a page is applied, then acknowledged, then
    // the cursor is saved.
    method PullPage(st: Store.Engine, d: Id) returns (more: bool)
      requires Server.Inv(st.View()) && d in st.devices && ClientOk(st.View(), d, Idle())
      modifies this, st`acks
      ensures Server.Inv(st.View()) && ClientOk(st.View(), d, Idle())
      ensures old(cursor) > HeadSeq(st.journal) ==> more && cursor == HeadSeq(st.journal) && st.acks == old(st.acks)
      ensures old(cursor) <= HeadSeq(st.journal) ==>
        && old(cursor) <= cursor <= HeadSeq(st.journal)
        && st.acks == (if cursor > old(cursor) then Raised(old(st.acks), d, cursor) else old(st.acks))
        && (if more then Left(old(st.View()), cursor) < Left(old(st.View()), old(cursor))
            else Left(old(st.View()), cursor) == 0)
    {
      hide Server.Inv, ClientOk, GetChanges, Left, Fetch, Raised;
      ghost var t := st.View();
      FetchKeepsClient(t, d, Idle(), 200);
      FetchIs(t, Idle(), 200);
      PageShrinks(t, cursor, 200);
      var p := st.ReadChanges(All, cursor, 200, "");
      if p.needReconcile {
        // The cursor is past the server's journal: go on from its head.
        cursor := p.next;
        return true;
      }
      ApplyChanges(p, d, t);
      AckAndSave(st, d, p);
      more := p.hasMore;
    }

    // pull. A finished pull leaves the replica equal to the server, the cursor
    // at the head, and the head acknowledged if there was anything to read.
    method Pull(st: Store.Engine, d: Id)
      requires Server.Inv(st.View()) && d in st.devices && ClientOk(st.View(), d, Idle())
      modifies this, st`acks
      ensures Server.Inv(st.View()) && ClientOk(st.View(), d, Idle())
      ensures SameAsServer(st.View(), replica)
      ensures cursor == HeadSeq(st.journal)
      ensures st.acks == if old(cursor) < HeadSeq(st.journal) then Raised(old(st.acks), d, HeadSeq(st.journal)) else old(st.acks)
      ensures old(cursor) <= old(Gc.Acked(st.View(), d)) ==> HeadSeq(st.journal) <= Gc.Acked(st.View(), d)
    {
      hide Server.Inv, ClientOk, Left, HeadSeq;
      ghost var t0 := st.View();
      ghost var head := HeadSeq(st.journal);
      ghost var from := if cursor > head then head else cursor;
      var more := true;
      while more
        invariant Server.Inv(st.View()) && ClientOk(st.View(), d, Idle())
        invariant !more ==> cursor <= head && Left(st.View(), cursor) == 0
        invariant cursor > head ==> cursor == old(cursor) && st.acks == old(st.acks)
        invariant cursor <= head ==> from <= cursor && st.acks == if cursor > from then Raised(old(st.acks), d, cursor) else old(st.acks)
        decreases more, cursor > head, Left(t0, cursor)
      {
        ghost var t1, c1 := st.View(), cursor;
        more := PullPage(st, d);
        LeftIgnoresAcks(t0, t1, c1);
        LeftIgnoresAcks(t0, t1, cursor);
        LeftIgnoresAcks(t1, st.View(), cursor);
      }
      NothingLeft(st.View(), cursor);
      CaughtUpIsEqual(st.View(), d, Idle());
    }
  }

  // The acks once d has acknowledged n: a higher one stays.
  function Raised(acks: map<Id, nat>, d: Id, n: nat): map<Id, nat> {
    acks[d := if d in acks && acks[d] > n then acks[d] else n]
  }

  lemma AckRaises(t: Tables, d: Id, n: nat)
    requires n <= HeadSeq(t.journal)
    ensures !Server.AckError(t, n) && Server.Ack(t, d, n).acks == Raised(t.acks, d, n)
  {}

  // A device that has applied all of a page.
  ghost function PageRead(replica: map<Id, Copy>, cursor: nat, p: Page, bound: nat): Client
    requires p.next >= 0
  {
    Client(replica, cursor, Some(InFlight(p.changes, p.next, bound, |p.changes|, false, false)), None)
  }

  lemma AckThenSave(t: Tables, d: Id, replica: map<Id, Copy>, cursor: nat, p: Page)
    requires Server.Inv(t) && d in t.devices && cursor <= p.next && ClientOk(t, d, PageRead(replica, cursor, p, t.lastSeq))
    ensures var t' := if p.next > cursor then Server.Ack(t, d, p.next) else t;
      Server.Inv(t') && ClientOk(t', d, Client(replica, p.next, None, None))
  {
    hide Server.Inv, ClientOk;
    var cl := PageRead(replica, cursor, p, t.lastSeq);
    if p.next > cursor {
      Server.AckKeepsInv(t, d, p.next);
      AckKeepsClient(t, d, cl);
      SaveKeepsClient(Server.Ack(t, d, p.next), d, cl.(page := Some(cl.page.value.(acked := true))));
    } else {
      IdleClientOk(t, d, cl);
    }
  }

  // Changes a device has still to read.
  ghost function Left(t: Tables, since: nat): nat { |Rows(t, t.journal, All, since, "")| }

  lemma FetchIs(t: Tables, cl: Client, limit: int)
    ensures var p := GetChanges(t, All, cl.cursor, limit, "");
      && p.next >= 0 && (p.needReconcile <==> cl.cursor > HeadSeq(t.journal)) && (p.needReconcile ==> p.next == HeadSeq(t.journal))
      && Fetch(t, cl, limit) == (if p.needReconcile then cl.(cursor := p.next)
                                 else cl.(page := Some(InFlight(p.changes, p.next, t.lastSeq, 0, false, false))))
  {
    hide Rows;
  }

  lemma PageShrinks(t: Tables, since: nat, limit: int)
    requires Server.Inv(t)
    ensures var p := GetChanges(t, All, since, limit, "");
      since <= HeadSeq(t.journal) ==>
        && since <= p.next <= HeadSeq(t.journal)
        && (if p.hasMore then p.next > since && Left(t, p.next) < Left(t, since) else Left(t, p.next) == 0)
  {
    if since <= HeadSeq(t.journal) { NextPageIsTheRest(t, All, since, limit, ""); }
    hide Rows;
  }

  lemma LeftIgnoresAcks(t: Tables, t1: Tables, since: nat)
    requires t1 == t.(acks := t1.acks)
    ensures Left(t1, since) == Left(t, since)
  {
    AcksDoNotShow(t, t1, t.journal, since);
  }

  lemma {:induction false} AcksDoNotShow(t: Tables, t1: Tables, j: seq<Entry>, since: int)
    requires t1 == t.(acks := t1.acks)
    ensures Rows(t1, j, All, since, "") == Rows(t, j, All, since, "")
  {
    if j != [] { AcksDoNotShow(t, t1, j[..|j| - 1], since); }
  }

  // Nothing left to read means the cursor is at the head.
  lemma NothingLeft(t: Tables, since: nat)
    requires Server.Inv(t) && Left(t, since) == 0
    ensures HeadSeq(t.journal) <= since
  {
    assert t.journal != [] ==> !Selected(t, All, since, "", t.journal[|t.journal| - 1]);
  }
}
