// What devices acknowledge over every run, and what that lets go.

module Acks {
  import opened Wrappers
  import opened Model
  import opened PushSpec
  import opened Chain
  import opened Refs
  import opened Gc
  import opened Changes
  import opened Forest
  import opened Idempotency
  import Quota
  import opened Server
  import opened Sync

  // An accepted ack is recorded, a lower one does not take back a higher one,
  // one past the head is refused, and no other device's ack changes.
  lemma AckIsRecorded(t: Tables, d: Id, n: int)
    ensures var acks := Ack(t, d, n).acks;
      && (0 <= n <= HeadSeq(t.journal) ==> d in acks && n <= acks[d] && (acks[d] == n || (d in t.acks && acks[d] == t.acks[d])))
      && (d in t.acks ==> d in acks && t.acks[d] <= acks[d])
      && (n < 0 || n > HeadSeq(t.journal) ==> acks == t.acks)
      && (forall x :: x != d ==> (x in acks <==> x in t.acks) && (x in acks ==> acks[x] == t.acks[x]))
    ensures Ack(t, d, n) == t.(acks := Ack(t, d, n).acks)
  {}

  // A device has acknowledged all that its saved cursor is past.
  ghost predicate CursorAcked(t: Tables, d: Id, cl: Client) {
    && cl.cursor <= Acked(t, d)
    && (cl.page.Some? && cl.page.value.acked ==> cl.page.value.next <= Acked(t, d))
  }

  ghost predicate CursorsAcked(s: Sys) { forall d :: d in s.clients ==> CursorAcked(s.t, d, s.clients[d]) }

  lemma NextKeepsAcks(t: Tables, a: Action)
    requires !a.DoAck?
    ensures Next(t, a).acks == t.acks
  {
    hide Next, ApplyAll, Commit, SameShape;
    if a.DoPush? || a.DoLateCommit? || a.DoUpload? || a.DoCollect? || a.DoRepair? { WritesKeepAcks(t, a); } else { NextLeavesFeed(t, a); }
  }

  lemma WritesKeepAcks(t: Tables, a: Action)
    requires a.DoPush? || a.DoLateCommit? || a.DoUpload? || a.DoCollect? || a.DoRepair?
    ensures Next(t, a).acks == t.acks
  {
    hide ApplyAll, Compactable, Recount, Without, Tombstone, AfterMove, InsertError, Rename, Mirror;
    match a
    case DoPush(dev, k, items) => Quota.BatchFrame(t, dev, ScopedKey(dev, k), items);
    case DoLateCommit(dev, k, items) => Quota.BatchFrame(t, dev, ScopedKey(dev, k), items);
    case _ =>
  }

  lemma FetchKeepsAcked(t: Tables, d: Id, cl: Client, limit: int)
    requires CursorAcked(t, d, cl) && cl.page.None?
    ensures CursorAcked(t, d, Fetch(t, cl, limit))
  {
    hide Rows;
  }

  // Only the device's own ack moves what it acknowledged, and only upwards.
  lemma AckPageKeepsAcked(s: Sys, d: Id)
    requires CursorsAcked(s) && CanHappen(s, AckPage(d))
    ensures CursorsAcked(Sync.Step(s, AckPage(d)))
  {
    hide Ack;
    AckIsRecorded(s.t, d, s.clients[d].page.value.next);
  }

  lemma ServerKeepsAcked(s: Sys, t': Tables)
    requires CursorsAcked(s) && forall d :: d in s.clients ==> Acked(t', d) == Acked(s.t, d)
    ensures CursorsAcked(s.(t := t'))
  {
    hide Acked;
  }

  lemma DeviceKeepsAcked(s: Sys, d: Id, cl: Client)
    requires CursorsAcked(s) && CursorAcked(s.t, d, cl)
    ensures CursorsAcked(s.(clients := s.clients[d := cl]))
  {
    hide Acked;
  }

  lemma ServerStepKeepsAcked(s: Sys, a: Action)
    requires CursorsAcked(s) && (a.DoAck? ==> a.d !in s.clients)
    ensures CursorsAcked(s.(t := Next(s.t, a)))
  {
    hide CursorsAcked, Ack, Next;
    if a.DoAck? {
      AckIsNext(s.t, a.d, a.n);
      AckIsRecorded(s.t, a.d, a.n);
    } else {
      NextKeepsAcks(s.t, a);
    }
    ServerKeepsAcked(s, Next(s.t, a));
  }

  lemma AckIsNext(t: Tables, d: Id, n: int)
    ensures Next(t, DoAck(d, n)) == Ack(t, d, n)
  {
    hide Push, Commit, Upload, Ack, Collect, Repair, InsertError, AfterMove, Rename, Mirror, Tombstone;
  }

  lemma PushOwnKeepsAcked(s: Sys, e: Event)
    requires CursorsAcked(s) && CanHappen(s, e) && e.PushOwn?
    ensures CursorsAcked(Sync.Step(s, e))
  {
    hide Push, OwnOf, Answer, CursorsAcked;
    var (t', reply) := Push(s.t, e.dev, e.k, [e.inp]);
    PushKeepsAcks(s.t, e.dev, e.k, [e.inp]);
    ServerKeepsAcked(s, t');
    assert CursorAcked(s.t, e.d, s.clients[e.d]) by { OneOf(s, e.d); }
    DeviceKeepsAcked(s.(t := t'), e.d, s.clients[e.d].(own := OwnOf(e.inp, Answer(e.inp, reply))));
  }

  lemma OneOf(s: Sys, d: Id)
    requires CursorsAcked(s) && d in s.clients
    ensures CursorAcked(s.t, d, s.clients[d])
  {}

  lemma PushKeepsAcks(t: Tables, dev: Caller, k: string, items: seq<Input>)
    ensures Push(t, dev, k, items).0.acks == t.acks
  {
    hide ApplyAll;
    Quota.BatchFrame(t, dev, ScopedKey(dev, k), items);
  }

  lemma StepKeepsAcked(s: Sys, e: Event)
    requires CursorsAcked(s) && CanHappen(s, e)
    ensures CursorsAcked(Sync.Step(s, e))
  {
    hide CursorsAcked, Next, Fetch, ApplyChange, Recorded, Environment;
    match e
    case ServerDoes(a) => ServerStepKeepsAcked(s, a);
    case NewDevice(d) =>
      ServerStepKeepsAcked(s, DoRegister(d, true));
      DeviceKeepsAcked(s.(t := Next(s.t, DoRegister(d, true))), d, Client(map[], 0, None, None));
    case RevokeDevice(d) => ServerStepKeepsAcked(s, DoRevoke(d)); OneLess(s.(t := Next(s.t, DoRevoke(d))), d);
    case AckPage(d) => AckPageKeepsAcked(s, d);
    case FetchPage(d, limit) => OneOf(s, d); FetchKeepsAcked(s.t, d, s.clients[d], limit); DeviceKeepsAcked(s, d, Fetch(s.t, s.clients[d], limit));
    case PushOwn(d, dev, k, inp) => PushOwnKeepsAcked(s, e);
    case _ => OneOf(s, e.d); DeviceKeepsAcked(s, e.d, Sync.Step(s, e).clients[e.d]);
  }

  lemma OneLess(s: Sys, d: Id)
    requires CursorsAcked(s)
    ensures CursorsAcked(s.(clients := s.clients - {d}))
  {
    hide CursorAcked;
  }

  // In every reachable state each device has acknowledged all its cursor is past.
  lemma {:induction false} CursorsAreAcked(ss: seq<Sys>, es: seq<Event>, n: nat)
    requires IsRun(ss, es) && n <= |es|
    ensures CursorsAcked(ss[n])
  {
    hide Sync.Step, CanHappen;
    if n > 0 {
      hide CursorsAcked;
      CursorsAreAcked(ss, es, n - 1);
      StepKeepsAcked(ss[n - 1], es[n - 1]);
    }
  }

  // Once every sync device has reached the head, with whatever failures and
  // writes before, Collect leaves no tombstone.
  lemma CaughtUpLeavesNoTombstone(ss: seq<Sys>, es: seq<Event>, n: nat)
    requires IsRun(ss, es) && n <= |es|
    requires forall d :: d in ss[n].clients ==> HeadSeq(ss[n].t.journal) <= ss[n].clients[d].cursor
    ensures forall o :: o in Collect(ss[n].t).objects ==> !ss[n].t.objects[o].deleted
    ensures forall o :: o in ss[n].t.objects && !ss[n].t.objects[o].deleted ==> o in Collect(ss[n].t).objects
  {
    hide Collect, Sync.Step, CanHappen;
    CursorsAreAcked(ss, es, n);
    RunsKeepSysInv(ss, es, n);
    InvParts(ss[n].t);
    AllAcknowledged(ss[n].t);
  }
}
