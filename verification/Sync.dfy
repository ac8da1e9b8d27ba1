// The whole protocol: the server and its sync devices, each with a replica
// that it fills page by page, in any interleaving, with failures and crashes.

module Sync {
  import opened Wrappers
  import opened Model
  import opened Access
  import opened PushSpec
  import opened Writes
  import opened Chain
  import opened Idempotency
  import opened Gc
  import opened Changes
  import opened Server
  import opened Forest
  import opened Outcomes

  // What a device keeps of an object.
  datatype Copy = Copy(rev: nat, hash: Hash, meta: Meta, blob: Hash)

  // A fetched page being applied: `done` changes were handled, and the server
  // had handed out sequence numbers up to `bound` when it was fetched.
  datatype InFlight = InFlight(changes: seq<Change>, next: nat, bound: nat, done: nat, failed: bool, acked: bool)

  // A push of its own that was accepted and not yet recorded.
  datatype Own = OwnCopy(oid: Id, copy: Copy) | OwnDelete(oid: Id)

  datatype Client = Client(replica: map<Id, Copy>, cursor: nat, page: Option<InFlight>, own: Option<Own>)

  datatype Sys = Sys(t: Tables, clients: map<Id, Client>)

  // ---- the client's steps ---------------------------------------------------

  predicate Deletes(ch: Change) { ch.op == Delete || ch.deleted }

  function CopyOf(ch: Change): Copy { Copy(ch.rev, ch.hash, if ch.meta.Some? then ch.meta.value else EmptyMeta(), ch.blob) }

  // applyChange, on the replica.
  function ApplyChange(replica: map<Id, Copy>, ch: Change): map<Id, Copy> {
    if Deletes(ch) then replica - {ch.oid}
    else if ch.oid in replica && replica[ch.oid].rev >= ch.rev && replica[ch.oid].hash == ch.hash then replica
    else replica[ch.oid := CopyOf(ch)]
  }

  // The device reads a page from its cursor; a cursor past the journal is set
  // back to its head.
  function Fetch(t: Tables, cl: Client, limit: int): Client {
    var p := GetChanges(t, All, cl.cursor, limit, "");
    if p.needReconcile then cl.(cursor := HeadSeq(t.journal))
    else cl.(page := Some(InFlight(p.changes, p.next, t.lastSeq, 0, false, false)))
  }

  // One change is applied, or fails and leaves the replica as it was.
  function Handle(cl: Client, ok: bool): Client
    requires cl.page.Some? && cl.page.value.done < |cl.page.value.changes|
  {
    var p := cl.page.value;
    if ok then cl.(replica := ApplyChange(cl.replica, p.changes[p.done]), page := Some(p.(done := p.done + 1)))
    else cl.(page := Some(p.(done := p.done + 1, failed := true)))
  }

  datatype Event =
    | ServerDoes(a: Action)               // any write that is not one of the below
    | NewDevice(d: Id)
    | RevokeDevice(d: Id)
    | FetchPage(d: Id, limit: int)
    | HandleChange(d: Id, ok: bool)
    | AckPage(d: Id)                      // the server records the ack
    | SaveCursor(d: Id)                   // the device saves its cursor
    | Abandon(d: Id)                      // a crash, an error, or nothing left to do
    | PushOwn(d: Id, dev: Caller, k: string, inp: Input)   // the device pushes a change of its own
    | KeepOwn(d: Id)                                       // ... and, later, records its result

  ghost predicate CanHappen(s: Sys, e: Event) {
    match e
    case ServerDoes(a) =>
      Allowed(s.t, a) && !a.DoRevoke? && (a.DoRegister? ==> !a.sync) && (a.DoAck? ==> a.d !in s.clients)
    case NewDevice(d) => d !in s.t.devices && d !in s.t.acks
    case RevokeDevice(d) => d in s.t.devices
    case FetchPage(d, _) => d in s.clients && s.clients[d].page.None? && s.clients[d].own.None?
    case HandleChange(d, _) => d in s.clients && s.clients[d].page.Some? && s.clients[d].page.value.done < |s.clients[d].page.value.changes|
    case AckPage(d) =>
      d in s.clients && s.clients[d].page.Some? &&
      var p := s.clients[d].page.value; p.done == |p.changes| && !p.failed && !p.acked && p.next > s.clients[d].cursor
    case SaveCursor(d) => d in s.clients && s.clients[d].page.Some? && s.clients[d].page.value.acked
    case Abandon(d) => d in s.clients
    case PushOwn(d, dev, k, inp) =>
      && d in s.clients && s.clients[d].page.None? && s.clients[d].own.None?
      && NoColon(dev.id) && k != "" && ScopedKey(dev, k) !in s.t.idem
    case KeepOwn(d) => d in s.clients && s.clients[d].own.Some?
  }

  // What the device is about to record: the revision it was answered, with the
  // data it sent.
  function OwnOf(inp: Input, r: PushResult): Option<Own> {
    if r.status != Ok then None
    else if inp.op == Delete then Some(OwnDelete(inp.oid))
    else Some(OwnCopy(inp.oid, Copy(r.rev, StoredHash(inp), MetaOf(inp), inp.blob)))
  }

  function Recorded(replica: map<Id, Copy>, own: Own): map<Id, Copy> {
    match own
    case OwnCopy(oid, copy) => replica[oid := copy]
    case OwnDelete(oid) => replica - {oid}
  }

  function Answer(inp: Input, reply: PushReply): PushResult {
    if reply.Replied? && |reply.results| == 1 then reply.results[0] else PushResult(inp.oid, Error, 0, 0, 0, "", NoError)
  }

  ghost function Step(s: Sys, e: Event): Sys
    requires CanHappen(s, e)
  {
    match e
    case ServerDoes(a) => s.(t := Next(s.t, a))
    case NewDevice(d) => Sys(Next(s.t, DoRegister(d, true)), s.clients[d := Client(map[], 0, None, None)])
    case RevokeDevice(d) => Sys(Next(s.t, DoRevoke(d)), s.clients - {d})
    case FetchPage(d, limit) => s.(clients := s.clients[d := Fetch(s.t, s.clients[d], limit)])
    case HandleChange(d, ok) => s.(clients := s.clients[d := Handle(s.clients[d], ok)])
    case AckPage(d) =>
      var p := s.clients[d].page.value;
      if AckError(s.t, p.next) then s.(clients := s.clients[d := s.clients[d].(page := None, own := None)])
      else Sys(Ack(s.t, d, p.next), s.clients[d := s.clients[d].(page := Some(p.(acked := true)))])
    case SaveCursor(d) =>
      s.(clients := s.clients[d := s.clients[d].(cursor := s.clients[d].page.value.next, page := None)])
    case Abandon(d) => s.(clients := s.clients[d := s.clients[d].(page := None, own := None)])
    case PushOwn(d, dev, k, inp) =>
      var (t', reply) := Push(s.t, dev, k, [inp]);
      Sys(t', s.clients[d := s.clients[d].(own := OwnOf(inp, Answer(inp, reply)))])
    case KeepOwn(d) =>
      var cl := s.clients[d];
      s.(clients := s.clients[d := cl.(replica := Recorded(cl.replica, cl.own.value), own := None)])
  }

  // ---- what holds of a device ------------------------------------------------

  predicate SameData(c: Copy, o: Object) { c.hash == o.hash && c.meta == o.meta && c.blob == o.blob }

  // A copy is never ahead of the server, and at the same revision it is exact.
  predicate CopyOk(c: Copy, o: Object) {
    c.rev <= o.rev && (c.rev == o.rev ==> !o.deleted && SameData(c, o))
  }

  // The replica has this object exactly as the server does.
  predicate Current(t: Tables, replica: map<Id, Copy>, o: Id)
    requires o in t.objects
  {
    if t.objects[o].deleted then o !in replica
    else o in replica && replica[o].rev == t.objects[o].rev && SameData(replica[o], t.objects[o])
  }

  // A change on its way to the device: older than `bound`, never past its
  // object's last entry, and still exact if the object has not changed since.
  ghost predicate ChangeOk(t: Tables, bound: nat, ch: Change) {
    && ch.seqNo <= bound
    && (ch.oid in t.objects ==> ch.seqNo <= LastSeq(t.journal, ch.oid))
    && (!Deletes(ch) ==>
          && ch.oid in t.objects && CopyOk(CopyOf(ch), t.objects[ch.oid])
          && (t.objects[ch.oid].deleted ==> LastSeq(t.journal, ch.oid) > bound))
    && (ch.oid in t.objects && LastSeq(t.journal, ch.oid) <= bound ==>
          && (Deletes(ch) <==> t.objects[ch.oid].deleted)
          && (ch.seqNo == LastSeq(t.journal, ch.oid) && !Deletes(ch) ==> ch.rev == t.objects[ch.oid].rev))
  }

  ghost predicate Covered(t: Tables, cs: seq<Change>, o: Id) {
    exists i :: 0 <= i < |cs| && cs[i].oid == o && cs[i].seqNo == LastSeq(t.journal, o)
  }

  ghost predicate CurrentIfLast(t: Tables, replica: map<Id, Copy>, ch: Change) {
    ch.oid in t.objects && ch.seqNo == LastSeq(t.journal, ch.oid) ==> Current(t, replica, ch.oid)
  }

  ghost predicate PageOk(t: Tables, d: Id, cl: Client, p: InFlight) {
    && p.next <= p.bound <= t.lastSeq
    && Acked(t, d) <= p.bound
    && p.done <= |p.changes|
    && (p.acked ==> p.done == |p.changes| && !p.failed)
    && Ascending(p.changes)
    && (forall i :: 0 <= i < |p.changes| ==> ChangeOk(t, p.bound, p.changes[i]) && p.changes[i].seqNo > cl.cursor)
    && (forall o :: o in t.objects && cl.cursor < LastSeq(t.journal, o) <= p.next ==> Covered(t, p.changes, o))
    && (!p.failed ==> forall i :: 0 <= i < p.done ==> CurrentIfLast(t, cl.replica, p.changes[i]))
  }

  // No copy is ahead of the server or of an object it has dropped.
  ghost predicate CopiesOk(t: Tables, replica: map<Id, Copy>) {
    forall o :: o in replica ==> o in t.objects && CopyOk(replica[o], t.objects[o])
  }

  // Objects last written at or before n are exact.
  ghost predicate CurrentUpTo(t: Tables, replica: map<Id, Copy>, n: nat) {
    forall o :: o in t.objects && LastSeq(t.journal, o) <= n ==> Current(t, replica, o)
  }

  // Objects deleted at or before n are gone.
  ghost predicate GoneUpTo(t: Tables, replica: map<Id, Copy>, n: nat) {
    forall o :: o in t.objects && t.objects[o].deleted && LastSeq(t.journal, o) <= n ==> o !in replica
  }

  // What is about to be recorded is as honest as any copy, and newer than
  // everything the device has read or acknowledged.
  ghost predicate OwnOk(t: Tables, d: Id, cursor: nat, own: Own) {
    match own
    case OwnCopy(o, copy) =>
      o in t.objects && CopyOk(copy, t.objects[o]) && LastSeq(t.journal, o) > cursor && LastSeq(t.journal, o) > Acked(t, d)
    case OwnDelete(o) => o in t.objects ==> t.objects[o].deleted || LastSeq(t.journal, o) > cursor
  }

  ghost predicate ClientOk(t: Tables, d: Id, cl: Client) {
    && cl.cursor <= t.lastSeq && Acked(t, d) <= t.lastSeq
    && CurrentUpTo(t, cl.replica, cl.cursor)
    && CopiesOk(t, cl.replica)
    && GoneUpTo(t, cl.replica, Acked(t, d))
    && (cl.page.Some? ==> PageOk(t, d, cl, cl.page.value))
    && (cl.own.Some? ==> cl.page.None? && OwnOk(t, d, cl.cursor, cl.own.value))
  }

  // Every active sync device's client is as it should be.
  ghost predicate SysInv(s: Sys) {
    && Inv(s.t)
    && s.clients.Keys == SyncDevices(s.t)
    && forall d :: d in s.clients ==> ClientOk(s.t, d, s.clients[d])
  }

  // ---- server writes -----------------------------------------------------------

  lemma LastSeqPut(t: Tables, oid: Id, w: RowWrite, dev: Id, key: string, o: Id)
    ensures LastSeq(Put(t, oid, w, dev, key).journal, o) == if o == oid then t.lastSeq + 1 else LastSeq(t.journal, o)
  {
    OfAppend(t.journal, Entry(t.lastSeq + 1, oid, w.col, w.op, w.row.rev, w.row.hash, w.row.metaHash, dev, key), o);
  }

  // All that a client can notice of one effective write.
  ghost predicate Wrote(t: Tables, t': Tables, oid: Id, row: Object) {
    && t'.objects == t.objects[oid := row] && t'.lastSeq == t.lastSeq + 1 && t'.acks == t.acks
    && (oid in t.objects ==> !t.objects[oid].deleted && row.rev == t.objects[oid].rev + 1)
    && (forall o :: LastSeq(t'.journal, o) == if o == oid then t.lastSeq + 1 else LastSeq(t.journal, o))
  }

  lemma PutIsNoticed(t: Tables, oid: Id, w: RowWrite, dev: Id, key: string)
    requires ValidWrite(t, oid, w)
    ensures Wrote(t, Put(t, oid, w, dev, key), oid, w.row)
  {
    hide LastSeq, MoveRefs, Cost, QuotaAllows, ValidId, Extra, CollectionOwner;
    forall o { LastSeqPut(t, oid, w, dev, key, o); }
  }

  lemma WriteKeepsChange(t: Tables, t': Tables, oid: Id, row: Object, bound: nat, ch: Change)
    requires Wrote(t, t', oid, row) && bound <= t.lastSeq && ChangeOk(t, bound, ch)
    ensures ChangeOk(t', bound, ch)
  {
    hide LastSeq;
  }

  lemma WriteKeepsPage(t: Tables, t': Tables, oid: Id, row: Object, d: Id, cl: Client, p: InFlight)
    requires Wrote(t, t', oid, row) && PageOk(t, d, cl, p)
    ensures PageOk(t', d, cl, p)
  {
    hide LastSeq, SameData;
    forall i | 0 <= i < |p.changes| ensures ChangeOk(t', p.bound, p.changes[i]) {
      WriteKeepsChange(t, t', oid, row, p.bound, p.changes[i]);
    }
    hide Ascending;
    forall o | o in t'.objects && cl.cursor < LastSeq(t'.journal, o) <= p.next ensures Covered(t', p.changes, o) {
      assert o in t.objects && Covered(t, p.changes, o);
    }
    forall i | 0 <= i < |p.changes| && CurrentIfLast(t, cl.replica, p.changes[i]) ensures CurrentIfLast(t', cl.replica, p.changes[i]) {
      assert ChangeOk(t, p.bound, p.changes[i]);
    }
    hide ChangeOk, CurrentIfLast, Covered;
  }

  lemma WriteKeepsReplica(t: Tables, t': Tables, oid: Id, row: Object, replica: map<Id, Copy>, n: nat, m: nat)
    requires Wrote(t, t', oid, row) && n <= t.lastSeq && m <= t.lastSeq
    requires CopiesOk(t, replica) && CurrentUpTo(t, replica, n) && GoneUpTo(t, replica, m)
    ensures CopiesOk(t', replica) && CurrentUpTo(t', replica, n) && GoneUpTo(t', replica, m)
  {
    hide LastSeq, SameData;
    forall o | o in t'.objects && LastSeq(t'.journal, o) <= n ensures Current(t', replica, o) {
      assert Current(t, replica, o);
    }
  }

  lemma WriteKeepsOwn(t: Tables, t': Tables, oid: Id, row: Object, d: Id, cursor: nat, own: Own)
    requires Wrote(t, t', oid, row) && OwnOk(t, d, cursor, own) && cursor <= t.lastSeq && Acked(t, d) <= t.lastSeq
    ensures OwnOk(t', d, cursor, own)
  {
    hide LastSeq, SameData;
  }

  lemma WriteKeepsClient(t: Tables, t': Tables, oid: Id, row: Object, d: Id, cl: Client)
    requires Wrote(t, t', oid, row) && ClientOk(t, d, cl)
    ensures ClientOk(t', d, cl)
  {
    hide OwnOk, PageOk, LastSeq, CopiesOk, CurrentUpTo, GoneUpTo;
    if cl.page.Some? { WriteKeepsPage(t, t', oid, row, d, cl, cl.page.value); }
    WriteKeepsReplica(t, t', oid, row, cl.replica, cl.cursor, Acked(t, d));
    if cl.own.Some? { WriteKeepsOwn(t, t', oid, row, d, cl.cursor, cl.own.value); }
  }

  // Tables that agree on objects, journal and this device's ack look the same
  // to its client.
  lemma ClientFrame(t: Tables, t': Tables, d: Id, cl: Client)
    requires ClientOk(t, d, cl) && t'.objects == t.objects && t'.journal == t.journal && t'.lastSeq == t.lastSeq
    requires Acked(t', d) == Acked(t, d)
    ensures ClientOk(t', d, cl)
  {
    hide LastSeq;
    if cl.page.Some? { PageFrame(t, t', d, cl, cl.page.value); }
    hide PageOk;
  }

  lemma PageFrame(t: Tables, t': Tables, d: Id, cl: Client, p: InFlight)
    requires PageOk(t, d, cl, p) && t'.objects == t.objects && t'.journal == t.journal && t'.lastSeq == t.lastSeq
    requires Acked(t', d) <= p.bound
    ensures PageOk(t', d, cl, p)
  {
    hide LastSeq;
    forall i | 0 <= i < |p.changes| ensures ChangeOk(t', p.bound, p.changes[i]) { assert ChangeOk(t, p.bound, p.changes[i]); }
    forall o | o in t'.objects && cl.cursor < LastSeq(t'.journal, o) <= p.next ensures Covered(t', p.changes, o) {
      assert Covered(t, p.changes, o);
    }
    forall i | 0 <= i < |p.changes| && CurrentIfLast(t, cl.replica, p.changes[i]) ensures CurrentIfLast(t', cl.replica, p.changes[i]) {}
    hide ChangeOk, Covered, CurrentIfLast;
  }

  lemma ItemKeepsClient(t: Tables, dev: Caller, key: string, inp: Input, d: Id, cl: Client)
    requires ClientOk(t, d, cl)
    ensures ClientOk(ApplyOne(t, dev, key, inp).0, d, cl)
  {
    hide Decide, ValidWrite, ClientOk, Put, Wrote;
    DecisionsAreValid(t, dev, inp);
    var dec := Decide(t, dev, inp);
    var t1 := t.(blobRefs := dec.refs);
    ClientFrame(t, t1, d, cl);
    if dec.write.Some? {
      SameWrite(t, t1, inp.oid, dec.write.value);
      PutIsNoticed(t1, inp.oid, dec.write.value, dev.id, key);
      WriteKeepsClient(t1, Put(t1, inp.oid, dec.write.value, dev.id, key), inp.oid, dec.write.value.row, d, cl);
    }
  }

  lemma {:induction false} BatchKeepsClient(t: Tables, dev: Caller, key: string, items: seq<Input>, d: Id, cl: Client)
    requires ClientOk(t, d, cl)
    ensures ClientOk(ApplyAll(t, dev, key, items).0, d, cl)
    decreases |items|
  {
    hide ClientOk, ApplyOne;
    if items != [] {
      BatchKeepsClient(t, dev, key, items[..|items| - 1], d, cl);
      ItemKeepsClient(ApplyAll(t, dev, key, items[..|items| - 1]).0, dev, key, items[|items| - 1], d, cl);
    }
  }

  lemma CommitKeepsClient(t: Tables, dev: Caller, key: string, items: seq<Input>, d: Id, cl: Client)
    requires ClientOk(t, d, cl)
    ensures ClientOk(Commit(t, dev, key, items).0, d, cl)
  {
    hide ApplyAll, ClientOk, Commit;
    BatchKeepsClient(t, dev, key, items, d, cl);
    CommitShape(t, dev, key, items);
    var t1 := ApplyAll(t, dev, key, items).0;
    var t2 := Commit(t, dev, key, items).0;
    if t2 != t { ClientFrame(t1, t2, d, cl); }
  }

  lemma LastSeqCollect(t: Tables, o: Id)
    ensures LastSeq(Collect(t).journal, o) == if o in Tombstones(t) then 0 else LastSeq(t.journal, o)
  {
    OfWithout(t.journal, Tombstones(t), o);
  }

  // All that a client can notice of a compaction: what went was a tombstone
  // the device had acknowledged.
  ghost predicate Compacted(t: Tables, t': Tables, d: Id, gone: set<Id>) {
    && t'.lastSeq == t.lastSeq && t'.acks == t.acks
    && t'.objects == t.objects - gone
    && (forall o :: o in gone ==> o in t.objects && t.objects[o].deleted && LastSeq(t.journal, o) <= Acked(t, d))
    && (forall o :: LastSeq(t'.journal, o) == if o in gone then 0 else LastSeq(t.journal, o))
  }

  lemma CollectIsNoticed(t: Tables, d: Id)
    requires d in SyncDevices(t)
    ensures Compacted(t, Collect(t), d, Tombstones(t))
  {
    hide LastSeq, Without, Unused;
    forall o { LastSeqCollect(t, o); }
  }

  lemma CompactionKeepsPage(t: Tables, t': Tables, gone: set<Id>, d: Id, cl: Client, p: InFlight)
    requires Compacted(t, t', d, gone) && PageOk(t, d, cl, p)
    ensures PageOk(t', d, cl, p)
  {
    hide LastSeq, SameData, CopyOk;
    forall i | 0 <= i < |p.changes| ensures ChangeOk(t', p.bound, p.changes[i]) { assert ChangeOk(t, p.bound, p.changes[i]); }
    forall o | o in t'.objects && cl.cursor < LastSeq(t'.journal, o) <= p.next ensures Covered(t', p.changes, o) {
      assert Covered(t, p.changes, o);
    }
    forall i | 0 <= i < |p.changes| && CurrentIfLast(t, cl.replica, p.changes[i]) ensures CurrentIfLast(t', cl.replica, p.changes[i]) {}
    hide ChangeOk, Covered, CurrentIfLast;
  }

  // A tombstone goes only when this device's replica no longer has the
  // object and no page on its way could bring it back.
  lemma CompactionKeepsClient(t: Tables, t': Tables, gone: set<Id>, d: Id, cl: Client)
    requires Compacted(t, t', d, gone) && ClientOk(t, d, cl)
    ensures ClientOk(t', d, cl)
  {
    hide PageOk, LastSeq;
    if cl.page.Some? { CompactionKeepsPage(t, t', gone, d, cl, cl.page.value); }
  }

  lemma ServerKeepsClients(t: Tables, a: Action, d: Id, cl: Client)
    requires ClientOk(t, d, cl) && Inv(t) && Allowed(t, a) && !a.DoAck? && (a.DoRegister? ==> a.d != d) && d in SyncDevices(t)
    ensures ClientOk(Next(t, a), d, cl)
  {
    hide ClientOk, Inv;
    match a
    case DoPush(dev, k, items) => CommitKeepsClient(t, dev, ScopedKey(dev, k), items, d, cl); hide Commit;
    case DoLateCommit(dev, k, items) => CommitKeepsClient(t, dev, ScopedKey(dev, k), items, d, cl);
    case DoCollect => CollectIsNoticed(t, d); hide Compacted; CompactionKeepsClient(t, Collect(t), Tombstones(t), d, cl);
    case DoUpload(user, h, size) => ClientFrame(t, Next(t, a), d, cl);
    case DoRepair => ClientFrame(t, Next(t, a), d, cl);
    case _ => OtherKeepsClients(t, a, d, cl);
  }

  lemma PlaceShape(t: Tables, a: Action)
    requires a.DoCreate? || a.DoMove?
    ensures Next(t, a) == t.(collections := Next(t, a).collections)
  {
    hide InsertError, Insert, AfterMove;
  }

  lemma AdminShape(t: Tables, a: Action)
    requires a.DoAdmin?
    ensures Next(t, a) == t.(users := a.users, members := a.members, shares := a.shares)
  {}

  lemma NextLeavesFeed(t: Tables, a: Action)
    requires a.DoCreate? || a.DoMove? || a.DoTombstone? || a.DoRename? || a.DoMirror? || a.DoAdmin? || a.DoRegister? || a.DoRevoke?
    ensures var t' := Next(t, a); t'.objects == t.objects && t'.journal == t.journal && t'.lastSeq == t.lastSeq && t'.acks == t.acks
  {
    hide Next, SameShape;
    if a.DoCreate? || a.DoMove? { PlaceShape(t, a); }
    else if a.DoAdmin? { AdminShape(t, a); }
    else if a.DoRegister? { RegisterShape(t, a.d, a.sync); }
    else if a.DoRevoke? { RevokeShape(t, a.d); }
    else { EditShape(t, a); }
  }

  lemma OtherKeepsClients(t: Tables, a: Action, d: Id, cl: Client)
    requires ClientOk(t, d, cl)
    requires a.DoCreate? || a.DoMove? || a.DoTombstone? || a.DoRename? || a.DoMirror? || a.DoAdmin? || a.DoRegister? || a.DoRevoke?
    ensures ClientOk(Next(t, a), d, cl)
  {
    var t' := Next(t, a);
    assert t'.objects == t.objects && t'.journal == t.journal && t'.lastSeq == t.lastSeq && t'.acks == t.acks by {
      hide *;
      NextLeavesFeed(t, a);
    }
    hide ClientOk, Next;
    ClientFrame(t, t', d, cl);
  }

  // ---- client steps -------------------------------------------------------------

  // Where an entry stands in its object's chain.
  lemma ChainFacts(row: Object, es: seq<Entry>, e: Entry)
    requires IsChain(row, es) && InSeqOrder(es) && e in es
    ensures 1 <= e.rev <= row.rev && e.seqNo <= HeadSeq(es)
    ensures e.seqNo == HeadSeq(es) <==> e.rev == row.rev
    ensures e.rev == row.rev ==> e.hash == row.hash
    ensures e.op == Delete <==> row.deleted && e.rev == row.rev
  {
    var k :| 0 <= k < |es| && es[k] == e;
    assert k < |es| - 1 ==> es[k].seqNo < es[|es| - 1].seqNo;
  }

  lemma EntryInChain(t: Tables, e: Entry)
    requires JournalInv(t) && e in t.journal && e.oid in t.objects
    ensures var row := t.objects[e.oid]; var last := LastSeq(t.journal, e.oid);
      && 1 <= e.rev <= row.rev && e.seqNo <= last <= t.lastSeq
      && (e.seqNo == last <==> e.rev == row.rev)
      && (e.rev == row.rev ==> e.hash == row.hash)
      && (e.op == Delete <==> row.deleted && e.rev == row.rev)
  {
    OfMembers(t.journal, e.oid);
    OfInOrder(t.journal, e.oid);
    ChainFacts(t.objects[e.oid], Of(t.journal, e.oid), e);
    LastSeqBounds(t.journal, e.oid);
    var last :| last in t.journal && last.seqNo == LastSeq(t.journal, e.oid);
    var i :| 0 <= i < |t.journal| && t.journal[i] == last;
  }

  lemma FetchedChangeOk(t: Tables, e: Entry)
    requires JournalInv(t) && e in t.journal && e.oid in t.objects
    ensures ChangeOk(t, t.lastSeq, Joined(t, e))
  {
    hide LastSeq, JournalInv;
    EntryInChain(t, e);
  }

  // The row a visible entry turns into.
  lemma RowOf(t: Tables, since: nat, e: Entry) returns (c: Change)
    requires e in t.journal && e.seqNo > since && e.oid in t.objects && e.col in t.collections
    ensures c in Rows(t, t.journal, All, since, "") && c.oid == e.oid && c.seqNo == e.seqNo
  {
    RowsMembers(t, t.journal, All, since, "");
    c := Masked(t, All, Joined(t, e));
    assert Selected(t, All, since, "", e);
  }

  lemma LastEntry(t: Tables, o: Id) returns (e: Entry)
    requires JournalInv(t) && PlacesKnown(t) && o in t.objects
    ensures e in t.journal && e.oid == o && e.seqNo == LastSeq(t.journal, o) && e.col in t.collections
  {
    LastSeqBounds(t.journal, o);
    assert IsChain(t.objects[o], Of(t.journal, o));
    e :| e in t.journal && e.oid == o && e.seqNo == LastSeq(t.journal, o);
    var i :| 0 <= i < |t.journal| && t.journal[i] == e;
  }

  lemma FetchCovers(t: Tables, since: nat, limit: int, o: Id)
    requires JournalInv(t) && PlacesKnown(t) && o in t.objects && since <= HeadSeq(t.journal)
    requires since < LastSeq(t.journal, o) <= GetChanges(t, All, since, limit, "").next
    ensures Covered(t, GetChanges(t, All, since, limit, "").changes, o)
  {
    hide GetChanges, Rows, LastSeq;
    var p := GetChanges(t, All, since, limit, "");
    NextPageIsTheRest(t, All, since, limit, "");
    var e := LastEntry(t, o);
    var c := RowOf(t, since, e);
    RowsInOrder(t, t.journal, All, p.next, "");
    hide JournalInv;
    var later := Rows(t, t.journal, All, p.next, "");
    assert forall m :: 0 <= m < |later| ==> later[m] != c;
    assert c in p.changes + later;
    var m :| 0 <= m < |p.changes| && p.changes[m] == c;
  }

  lemma FetchedRowOk(t: Tables, since: nat, c: Change)
    requires JournalInv(t) && c in Rows(t, t.journal, All, since, "")
    ensures ChangeOk(t, t.lastSeq, c) && c.seqNo > since
  {
    hide ChangeOk, JournalInv, Rows;
    RowsMembers(t, t.journal, All, since, "");
    var e :| e in t.journal && Selected(t, All, since, "", e) && c == Masked(t, All, Joined(t, e));
    FetchedChangeOk(t, e);
  }

  lemma FetchedPage(t: Tables, since: nat, limit: int)
    requires JournalInv(t) && PlacesKnown(t) && since <= HeadSeq(t.journal)
    ensures var p := GetChanges(t, All, since, limit, "");
      && !p.needReconcile && Ascending(p.changes) && p.next <= t.lastSeq
      && (forall i :: 0 <= i < |p.changes| ==> ChangeOk(t, t.lastSeq, p.changes[i]) && p.changes[i].seqNo > since)
      && forall o :: o in t.objects && since < LastSeq(t.journal, o) <= p.next ==> Covered(t, p.changes, o)
  {
    hide Rows, LastSeq, ChangeOk, Covered, PlacesKnown, IsChain, Of;
    HeadIsBounded(t);
    var p := GetChanges(t, All, since, limit, "");
    NextPageIsTheRest(t, All, since, limit, "");
    RowsInOrder(t, t.journal, All, since, "");
    forall i | 0 <= i < |p.changes| ensures ChangeOk(t, t.lastSeq, p.changes[i]) && p.changes[i].seqNo > since {
      FetchedRowOk(t, since, p.changes[i]);
    }
    forall o | o in t.objects && since < LastSeq(t.journal, o) <= p.next ensures Covered(t, p.changes, o) {
      FetchCovers(t, since, limit, o);
    }
  }

  // A cursor past the end of the journal falls back to it.
  lemma ReconciledOk(t: Tables, d: Id, cl: Client)
    requires JournalInv(t) && ClientOk(t, d, cl) && cl.page.None? && cl.own.None? && HeadSeq(t.journal) < cl.cursor
    ensures ClientOk(t, d, cl.(cursor := HeadSeq(t.journal)))
  {
    hide LastSeq, JournalInv;
    HeadIsBounded(t);
  }

  lemma FetchKeepsClient(t: Tables, d: Id, cl: Client, limit: int)
    requires Inv(t) && ClientOk(t, d, cl) && cl.page.None? && cl.own.None?
    ensures ClientOk(t, d, Fetch(t, cl, limit))
  {
    hide Rows, ChangeOk, Covered, ClientOk, JournalInv, PlacesKnown, LastSeq, Ascending, Cut;
    if cl.cursor <= HeadSeq(t.journal) {
      FetchedPage(t, cl.cursor, limit);
      var p := GetChanges(t, All, cl.cursor, limit, "");
      PageFetched(t, d, cl, InFlight(p.changes, p.next, t.lastSeq, 0, false, false));
    } else {
      ReconciledOk(t, d, cl);
    }
  }

  lemma PageFetched(t: Tables, d: Id, cl: Client, p: InFlight)
    requires ClientOk(t, d, cl) && cl.own.None? && p.done == 0 && !p.failed && !p.acked && p.bound == t.lastSeq && p.next <= t.lastSeq
    requires Ascending(p.changes)
    requires forall i :: 0 <= i < |p.changes| ==> ChangeOk(t, p.bound, p.changes[i]) && p.changes[i].seqNo > cl.cursor
    requires forall o :: o in t.objects && cl.cursor < LastSeq(t.journal, o) <= p.next ==> Covered(t, p.changes, o)
    ensures ClientOk(t, d, cl.(page := Some(p)))
  {
    hide ChangeOk, LastSeq, Covered, Ascending, CurrentUpTo, CopiesOk, GoneUpTo;
  }

  // Applying a change keeps every copy honest and touches one object only.
  lemma ApplyKeepsCopies(t: Tables, bound: nat, replica: map<Id, Copy>, ch: Change)
    requires ChangeOk(t, bound, ch) && CopiesOk(t, replica)
    ensures var r := ApplyChange(replica, ch);
      && CopiesOk(t, r)
      && (forall o :: o != ch.oid ==> (o in r <==> o in replica) && (o in r ==> r[o] == replica[o]))
  {
    hide LastSeq;
  }

  // Applying an object's last change makes the object current.
  lemma ApplyMakesCurrent(t: Tables, bound: nat, replica: map<Id, Copy>, ch: Change)
    requires ChangeOk(t, bound, ch) && CopiesOk(t, replica)
    ensures CurrentIfLast(t, ApplyChange(replica, ch), ch)
  {
    hide LastSeq;
  }

  lemma HandleKeepsReplica(t: Tables, d: Id, cl: Client)
    requires ClientOk(t, d, cl) && cl.page.Some? && cl.page.value.done < |cl.page.value.changes|
    ensures var r := ApplyChange(cl.replica, cl.page.value.changes[cl.page.value.done]);
      CurrentUpTo(t, r, cl.cursor) && CopiesOk(t, r) && GoneUpTo(t, r, Acked(t, d))
  {
    hide LastSeq, Covered, CopyOk, ApplyChange, CopiesOk;
    var p := cl.page.value;
    var ch := p.changes[p.done];
    var r := ApplyChange(cl.replica, ch);
    assert ChangeOk(t, p.bound, ch) && ch.seqNo > cl.cursor;
    ApplyKeepsCopies(t, p.bound, cl.replica, ch);
    hide SameData, CurrentIfLast, PageOk;
    forall o | o in t.objects && LastSeq(t.journal, o) <= cl.cursor ensures Current(t, r, o) {
      assert Current(t, cl.replica, o);
    }
    forall o | o in t.objects && t.objects[o].deleted && LastSeq(t.journal, o) <= Acked(t, d) ensures o !in r {
      assert o !in cl.replica;
      if o == ch.oid { AckedStaysOut(t, p.bound, cl.replica, ch); }
    }
  }

  lemma HandleKeepsDone(t: Tables, d: Id, cl: Client)
    requires ClientOk(t, d, cl) && cl.page.Some? && cl.page.value.done < |cl.page.value.changes| && !cl.page.value.failed
    ensures var p := cl.page.value;
      var r := ApplyChange(cl.replica, p.changes[p.done]);
      forall i :: 0 <= i <= p.done ==> CurrentIfLast(t, r, p.changes[i])
  {
    hide LastSeq, Covered, CopyOk, ApplyChange, SameData, CopiesOk, CurrentUpTo, GoneUpTo;
    var p := cl.page.value;
    var ch := p.changes[p.done];
    var r := ApplyChange(cl.replica, ch);
    assert ChangeOk(t, p.bound, ch);
    ApplyKeepsCopies(t, p.bound, cl.replica, ch);
    ApplyMakesCurrent(t, p.bound, cl.replica, ch);
    hide ChangeOk;
    forall i | 0 <= i < p.done ensures CurrentIfLast(t, r, p.changes[i]) {
      assert CurrentIfLast(t, cl.replica, p.changes[i]) && p.changes[i].seqNo < ch.seqNo;
    }
  }

  lemma HandleKeepsClient(t: Tables, d: Id, cl: Client, ok: bool)
    requires ClientOk(t, d, cl) && cl.page.Some? && cl.page.value.done < |cl.page.value.changes|
    ensures ClientOk(t, d, Handle(cl, ok))
  {
    hide LastSeq, Covered, ChangeOk, CurrentIfLast, CopiesOk, CurrentUpTo, GoneUpTo, ApplyChange, Ascending;
    HandleKeepsReplica(t, d, cl);
    if !cl.page.value.failed { HandleKeepsDone(t, d, cl); }
  }

  // A change never brings back an object whose delete was acknowledged.
  lemma AckedStaysOut(t: Tables, bound: nat, replica: map<Id, Copy>, ch: Change)
    requires ChangeOk(t, bound, ch) && ch.oid in t.objects && t.objects[ch.oid].deleted
    requires LastSeq(t.journal, ch.oid) <= bound && ch.oid !in replica
    ensures ch.oid !in ApplyChange(replica, ch)
  {
    hide LastSeq;
  }

  // When a page is done without failures, everything up to its end is current.
  lemma DonePageIsCurrent(t: Tables, d: Id, cl: Client, o: Id)
    requires ClientOk(t, d, cl) && cl.page.Some? && cl.page.value.done == |cl.page.value.changes| && !cl.page.value.failed
    requires o in t.objects && LastSeq(t.journal, o) <= cl.page.value.next
    ensures Current(t, cl.replica, o)
  {
    hide LastSeq;
    var p := cl.page.value;
    if LastSeq(t.journal, o) > cl.cursor {
      assert Covered(t, p.changes, o);
      var i :| 0 <= i < |p.changes| && p.changes[i].oid == o && p.changes[i].seqNo == LastSeq(t.journal, o);
    }
  }

  lemma DonePageGone(t: Tables, d: Id, cl: Client, n: nat)
    requires ClientOk(t, d, cl) && cl.page.Some? && cl.page.value.done == |cl.page.value.changes| && !cl.page.value.failed
    requires n == Acked(t, d) || n == cl.page.value.next
    ensures GoneUpTo(t, cl.replica, n)
  {
    hide LastSeq, PageOk;
    forall o | o in t.objects && t.objects[o].deleted && LastSeq(t.journal, o) <= n ensures o !in cl.replica {
      if n == cl.page.value.next { DonePageIsCurrent(t, d, cl, o); }
    }
  }

  lemma AckKeepsClient(t: Tables, d: Id, cl: Client)
    requires ClientOk(t, d, cl) && cl.page.Some? && cl.page.value.done == |cl.page.value.changes| && !cl.page.value.failed
    ensures ClientOk(Ack(t, d, cl.page.value.next), d, cl.(page := Some(cl.page.value.(acked := true))))
  {
    hide LastSeq, CopyOk, Current, CopiesOk, CurrentUpTo, GoneUpTo;
    var p := cl.page.value;
    var t' := Ack(t, d, p.next);
    assert t' == t.(acks := t'.acks) && (Acked(t', d) == Acked(t, d) || Acked(t', d) == p.next) by { hide HeadSeq, ClientOk; }
    DonePageGone(t, d, cl, Acked(t', d));
    assert Acked(t', d) <= p.bound && PageOk(t, d, cl, p) && p.bound <= t.lastSeq by { hide GoneUpTo, CopiesOk, CurrentUpTo; }
    hide Ack, Acked;
    PageFrame(t, t', d, cl, p);
    AckedPage(t', d, cl, p);
    hide PageOk;
    ReplicaFrame(t, t', cl.replica, cl.cursor, Acked(t', d));
  }

  lemma ReplicaFrame(t: Tables, t': Tables, replica: map<Id, Copy>, n: nat, m: nat)
    requires t'.objects == t.objects && t'.journal == t.journal
    requires CopiesOk(t, replica) && CurrentUpTo(t, replica, n) && GoneUpTo(t, replica, m)
    ensures CopiesOk(t', replica) && CurrentUpTo(t', replica, n) && GoneUpTo(t', replica, m)
  {
    hide LastSeq, CopyOk;
    forall o | o in t'.objects && LastSeq(t'.journal, o) <= n ensures Current(t', replica, o) { assert Current(t, replica, o); }
  }

  lemma AckedPage(t: Tables, d: Id, cl: Client, p: InFlight)
    requires PageOk(t, d, cl, p) && p.done == |p.changes| && !p.failed
    ensures PageOk(t, d, cl.(page := Some(p.(acked := true))), p.(acked := true))
  {
    hide ChangeOk, Covered, CurrentIfLast, LastSeq, Ascending;
  }

  lemma SaveKeepsClient(t: Tables, d: Id, cl: Client)
    requires ClientOk(t, d, cl) && cl.page.Some? && cl.page.value.acked
    ensures ClientOk(t, d, cl.(cursor := cl.page.value.next, page := None))
  {
    hide LastSeq;
    forall o | o in t.objects && LastSeq(t.journal, o) <= cl.page.value.next ensures Current(t, cl.replica, o) {
      DonePageIsCurrent(t, d, cl, o);
    }
  }

  // ---- every step of every run ------------------------------------------------

  lemma AckOfOthers(t: Tables, d: Id, n: int, other: Id, cl: Client)
    requires ClientOk(t, other, cl) && d != other
    ensures ClientOk(Ack(t, d, n), other, cl)
  {
    var t' := Ack(t, d, n);
    assert Acked(t', other) == Acked(t, other);
    ClientFrame(t, t', other, cl);
  }

  // A device's own accepted push waits to be recorded.
  lemma PushOwnKeepsClient(t: Tables, d: Id, cl: Client, dev: Caller, k: string, inp: Input)
    requires ClientOk(t, d, cl) && cl.page.None? && cl.own.None? && k != "" && ScopedKey(dev, k) !in t.idem
    ensures var (t', reply) := Push(t, dev, k, [inp]);
      ClientOk(t', d, cl.(own := OwnOf(inp, Answer(inp, reply))))
  {
    hide Push, ApplyOne, OwnOf, OwnOk, PageOk, CurrentUpTo, CopiesOk, GoneUpTo;
    var key := ScopedKey(dev, k);
    var (t1, r) := ApplyOne(t, dev, key, inp);
    FreshPush(t, dev, k, inp);
    OwnResultOk(t, dev, key, inp, d, cl.cursor);
    ItemKeepsClient(t, dev, key, inp, d, cl);
    var t' := Push(t, dev, k, [inp]).0;
    ClientFrame(t1, t', d, cl);
    if OwnOf(inp, r).Some? { OwnFrame(t1, t', d, cl.cursor, OwnOf(inp, r).value); }
  }

  // A device that pushed a change and recorded the result holds the object just
  // as the server does, or no longer, until somebody else writes it.
  lemma OwnPushIsCurrent(t: Tables, dev: Caller, key: string, inp: Input, replica: map<Id, Copy>)
    requires ApplyOne(t, dev, key, inp).1.status == Ok
    ensures var (t', r) := ApplyOne(t, dev, key, inp);
      OwnOf(inp, r).Some? && inp.oid in t'.objects && Current(t', Recorded(replica, OwnOf(inp, r).value), inp.oid)
  {
    hide Decide, MoveRefs, Acceptable;
    ItemRecords(t, dev, key, inp);
    OkMeansWritten(t, dev, inp);
    if inp.op != Delete {
      AcceptedExactly(t, dev, inp);
      AcceptedStoresInput(t, dev, key, inp);
      hide ApplyOne;
    }
  }

  lemma OwnFrame(t: Tables, t': Tables, d: Id, cursor: nat, own: Own)
    requires OwnOk(t, d, cursor, own) && t'.objects == t.objects && t'.journal == t.journal && t'.acks == t.acks
    ensures OwnOk(t', d, cursor, own)
  {}

  lemma OwnResultOk(t: Tables, dev: Caller, key: string, inp: Input, d: Id, cursor: nat)
    requires cursor <= t.lastSeq && Acked(t, d) <= t.lastSeq
    ensures var (t', r) := ApplyOne(t, dev, key, inp);
      OwnOf(inp, r).Some? ==> OwnOk(t', d, cursor, OwnOf(inp, r).value)
  {
    hide Decide, MoveRefs, Acceptable, LastSeq;
    var (t', r) := ApplyOne(t, dev, key, inp);
    ItemRecords(t, dev, key, inp);
    OkMeansWritten(t, dev, inp);
    if r.status == Ok && inp.op != Delete {
      var dec := Decide(t, dev, inp);
      AcceptedExactly(t, dev, inp);
      AcceptedStoresInput(t, dev, key, inp);
      LastSeqPut(t.(blobRefs := dec.refs), inp.oid, dec.write.value, dev.id, key, inp.oid);
    }
  }

  // ... and recording it keeps the replica honest, whatever was written since.
  lemma KeepOwnKeepsClient(t: Tables, d: Id, cl: Client)
    requires ClientOk(t, d, cl) && cl.own.Some?
    ensures ClientOk(t, d, cl.(replica := Recorded(cl.replica, cl.own.value), own := None))
  {
    hide LastSeq, PageOk;
  }

  // What an accepted push of one item leaves behind.
  lemma ItemRecords(t: Tables, dev: Caller, key: string, inp: Input)
    ensures var (t', r) := ApplyOne(t, dev, key, inp);
      r.status == Ok ==> && inp.oid in t'.objects && t'.objects[inp.oid].rev == r.rev
                         && (inp.op == Delete <==> t'.objects[inp.oid].deleted)
  {
    hide Decide, MoveRefs, Cost, QuotaAllows, ValidId, Extra, CollectionOwner, LiveExtra;
    DecisionsAreValid(t, dev, inp);
    OkMeansWritten(t, dev, inp);
    DeleteKeepsRev(t, dev, inp);
  }

  lemma DeleteKeepsRev(t: Tables, dev: Caller, inp: Input)
    ensures var d := Decide(t, dev, inp);
      d.result.status == Ok && d.write.None? && inp.oid in t.objects ==> d.result.rev == t.objects[inp.oid].rev
  {
    hide AccessFor, MirrorReadOnly, ValidId, DecideCreate, DecideUpdate;
    OkMeansWritten(t, dev, inp);
  }

  // "ok" means the row was written, or was a tombstone already.
  lemma OkMeansWritten(t: Tables, dev: Caller, inp: Input)
    ensures var d := Decide(t, dev, inp);
      d.result.status == Ok && d.write.None? ==> inp.op == Delete && inp.oid in t.objects && t.objects[inp.oid].deleted
  {
    hide CheckCreate, CheckUpdate, CreatedRow, UpdatedRow, AccessFor, MirrorReadOnly, ValidId;
    if GateError(t, dev, inp) == NoError {
      match inp.op
      case Create => CreateOk(t, dev, inp);
      case Update => UpdateOk(t, dev, inp);
      case Delete =>
    }
  }

  lemma CreateOk(t: Tables, dev: Caller, inp: Input)
    requires inp.col in t.collections
    ensures var d := DecideCreate(t, dev, inp); d.write.None? ==> d.result.status != Ok
  {
    hide CheckCreate, CreatedRow, AccessFor;
  }

  lemma UpdateOk(t: Tables, dev: Caller, inp: Input)
    requires inp.col in t.collections
    ensures var d := DecideUpdate(t, dev, inp); d.write.None? ==> d.result.status != Ok
  {
    hide CheckUpdate, UpdatedRow;
  }

  lemma LastSeqIsPositive(t: Tables, o: Id)
    requires Inv(t) && o in t.objects
    ensures LastSeq(t.journal, o) > 0
  {
    hide LastSeq, IsChain, Of;
    var e := LastEntry(t, o);
    var i :| 0 <= i < |t.journal| && t.journal[i] == e;
  }

  lemma NewClientOk(t: Tables, d: Id)
    requires Inv(t) && d !in t.acks
    ensures ClientOk(Next(t, DoRegister(d, true)), d, Client(map[], 0, None, None))
  {
    hide Next, LastSeq, Inv;
    RegisterShape(t, d, true);
    var t' := Next(t, DoRegister(d, true));
    forall o | o in t'.objects ensures LastSeq(t'.journal, o) > 0 { LastSeqIsPositive(t, o); }
  }

  lemma StepKeepsInv(s: Sys, e: Event)
    requires SysInv(s) && CanHappen(s, e)
    ensures SysInv(Step(s, e))
  {
    hide SysInv;
    match e
    case ServerDoes(a) => ServerStepKeepsInv(s, a);
    case NewDevice(d) => NewDeviceKeepsInv(s, d);
    case RevokeDevice(d) => RevokeKeepsInv(s, d);
    case AckPage(d) => AckStepKeepsInv(s, d);
    case PushOwn(d, dev, k, inp) => OwnStepKeepsInv(s, d, dev, k, inp);
    case _ => ClientStepKeepsInv(s, e);
  }

  lemma ClientStepKeepsInv(s: Sys, e: Event)
    requires SysInv(s) && CanHappen(s, e) && (e.FetchPage? || e.HandleChange? || e.SaveCursor? || e.Abandon? || e.KeepOwn?)
    ensures SysInv(Step(s, e))
  {
    var cl := s.clients[e.d];
    assert ClientOk(s.t, e.d, cl);
    match e
    case FetchPage(d, limit) => FetchKeepsClient(s.t, d, cl, limit); OneClient(s, d, Fetch(s.t, cl, limit));
    case HandleChange(d, ok) => HandleKeepsClient(s.t, d, cl, ok); OneClient(s, d, Handle(cl, ok));
    case SaveCursor(d) => SaveKeepsClient(s.t, d, cl); OneClient(s, d, cl.(cursor := cl.page.value.next, page := None));
    case KeepOwn(d) => KeepOwnKeepsClient(s.t, d, cl); OneClient(s, d, cl.(replica := Recorded(cl.replica, cl.own.value), own := None));
    case Abandon(d) => IdleClientOk(s.t, d, cl); OneClient(s, d, cl.(page := None, own := None));
  }

  lemma IdleClientOk(t: Tables, d: Id, cl: Client)
    requires ClientOk(t, d, cl)
    ensures ClientOk(t, d, cl.(page := None, own := None))
  {
    hide LastSeq, PageOk;
  }

  lemma OneClient(s: Sys, d: Id, cl: Client)
    requires SysInv(s) && d in s.clients && ClientOk(s.t, d, cl)
    ensures SysInv(s.(clients := s.clients[d := cl]))
  {
    hide ClientOk, Inv;
  }

  lemma DevicesSame(t: Tables, a: Action)
    requires !a.DoRegister? && !a.DoRevoke?
    ensures Next(t, a).devices == t.devices
  {
    hide ApplyAll, AfterMove, InsertError, Rename;
    if a.DoPush? { Quota.BatchFrame(t, a.dev, ScopedKey(a.dev, a.k), a.items); }
    if a.DoLateCommit? { Quota.BatchFrame(t, a.dev, ScopedKey(a.dev, a.k), a.items); }
    hide Mirror, Collect, Repair;
  }

  // A server step that registers no sync device and revokes none.
  lemma SyncDevicesSame(t: Tables, a: Action)
    requires Allowed(t, a) && !a.DoRevoke? && (a.DoRegister? ==> !a.sync)
    ensures SyncDevices(Next(t, a)) == SyncDevices(t)
  {
    if !a.DoRegister? {
      DevicesSame(t, a);
      hide Next;
    }
  }

  lemma ServerStepKeepsInv(s: Sys, a: Action)
    requires SysInv(s) && Allowed(s.t, a) && !a.DoRevoke? && (a.DoRegister? ==> !a.sync) && (a.DoAck? ==> a.d !in s.clients)
    ensures SysInv(s.(t := Next(s.t, a)))
  {
    hide ClientOk, Inv, Next, Environment;
    NextKeepsInv(s.t, a);
    SyncDevicesSame(s.t, a);
    forall d | d in s.clients ensures ClientOk(Next(s.t, a), d, s.clients[d]) {
      StepKeepsClient(s, a, d);
    }
  }

  lemma StepKeepsClient(s: Sys, a: Action, d: Id)
    requires SysInv(s) && Allowed(s.t, a) && !a.DoRevoke? && (a.DoAck? ==> a.d !in s.clients) && d in s.clients
    ensures ClientOk(Next(s.t, a), d, s.clients[d])
  {
    hide ClientOk, Inv;
    if a.DoAck? {
      AckOfOthers(s.t, a.d, a.n, d, s.clients[d]);
    } else {
      assert a.DoRegister? ==> a.d != d;
      ServerKeepsClients(s.t, a, d, s.clients[d]);
    }
  }

  lemma RegisterShape(t: Tables, d: Id, sync: bool)
    ensures Next(t, DoRegister(d, sync)) == t.(devices := t.devices[d := DeviceRow(sync, false)])
  {
    hide Push, Commit, Upload, Ack, Collect, Repair, InsertError, AfterMove, Rename, Mirror, Tombstone;
  }

  lemma NewDeviceKeepsInv(s: Sys, d: Id)
    requires SysInv(s) && d !in s.t.devices && d !in s.t.acks
    ensures SysInv(Sys(Next(s.t, DoRegister(d, true)), s.clients[d := Client(map[], 0, None, None)]))
  {
    hide ClientOk, Inv;
    var t' := Next(s.t, DoRegister(d, true));
    NextKeepsInv(s.t, DoRegister(d, true));
    NewClientOk(s.t, d);
    RegisterShape(s.t, d, true);
    hide Next;
    assert SyncDevices(t') == SyncDevices(s.t) + {d};
    hide SyncDevices;
    var clients := s.clients[d := Client(map[], 0, None, None)];
    forall o | o in clients ensures ClientOk(t', o, clients[o]) {
      if o != d { ClientFrame(s.t, t', o, s.clients[o]); }
    }
    assert clients.Keys == s.clients.Keys + {d};
  }

  lemma RevokeShape(t: Tables, d: Id)
    ensures Next(t, DoRevoke(d)) ==
      if d in t.devices then t.(devices := t.devices[d := DeviceRow(t.devices[d].sync, true)]) else t
  {
    hide Push, Commit, Upload, Ack, Collect, Repair, InsertError, AfterMove, Rename, Mirror, Tombstone;
  }

  lemma RevokeKeepsInv(s: Sys, d: Id)
    requires SysInv(s) && d in s.t.devices
    ensures SysInv(Sys(Next(s.t, DoRevoke(d)), s.clients - {d}))
  {
    hide ClientOk, Inv, Next;
    RevokeShape(s.t, d);
    var t' := Next(s.t, DoRevoke(d));
    NextKeepsInv(s.t, DoRevoke(d));
    assert SyncDevices(t') == SyncDevices(s.t) - {d};
    forall o | o in s.clients ensures ClientOk(t', o, s.clients[o]) { ClientFrame(s.t, t', o, s.clients[o]); }
    hide SyncDevices;
  }

  lemma AckStepKeepsInv(s: Sys, d: Id)
    requires SysInv(s) && CanHappen(s, AckPage(d))
    ensures SysInv(Step(s, AckPage(d)))
  {
    var cl := s.clients[d];
    var p := cl.page.value;
    if AckError(s.t, p.next) {
      IdleClientOk(s.t, d, cl);
      OneClient(s, d, cl.(page := None, own := None));
    } else {
      Server.AckKeepsInv(s.t, d, p.next);
      AckKeepsClient(s.t, d, cl);
      OthersKeep(s, d, p.next, cl.(page := Some(p.(acked := true))));
    }
  }

  lemma OthersKeep(s: Sys, d: Id, n: int, cl: Client)
    requires SysInv(s) && d in s.clients && Inv(Ack(s.t, d, n)) && ClientOk(Ack(s.t, d, n), d, cl)
    ensures SysInv(Sys(Ack(s.t, d, n), s.clients[d := cl]))
  {
    hide ClientOk, Inv, HeadSeq;
    var t' := Ack(s.t, d, n);
    assert SyncDevices(t') == SyncDevices(s.t);
    hide Ack, SyncDevices;
    var clients := s.clients[d := cl];
    forall o | o in clients ensures ClientOk(t', o, clients[o]) {
      if o != d { AckOfOthers(s.t, d, n, o, s.clients[o]); }
    }
    assert clients.Keys == s.clients.Keys;
  }

  lemma OwnStepKeepsInv(s: Sys, d: Id, dev: Caller, k: string, inp: Input)
    requires SysInv(s) && CanHappen(s, PushOwn(d, dev, k, inp))
    ensures SysInv(Step(s, PushOwn(d, dev, k, inp)))
  {
    ServerStepKeepsInv(s, DoPush(dev, k, [inp]));
    PushOwnKeepsClient(s.t, d, s.clients[d], dev, k, inp);
    OneClient(s.(t := Next(s.t, DoPush(dev, k, [inp]))), d, Step(s, PushOwn(d, dev, k, inp)).clients[d]);
  }

  ghost predicate Start(s: Sys) { s.t == Empty(s.t.maxBlob) && s.clients == map[] }

  // A run: its states, and the events between them.
  ghost predicate IsRun(ss: seq<Sys>, es: seq<Event>) {
    && |ss| == |es| + 1 && Start(ss[0])
    && forall i :: 0 <= i < |es| ==> CanHappen(ss[i], es[i]) && ss[i + 1] == Step(ss[i], es[i])
  }

  // Every state of every run satisfies the invariant.
  lemma {:induction false} RunsKeepSysInv(ss: seq<Sys>, es: seq<Event>, n: nat)
    requires IsRun(ss, es) && n <= |es|
    ensures SysInv(ss[n])
  {
    if n == 0 {
      EmptyIsInv(ss[0].t.maxBlob);
      assert SyncDevices(ss[0].t) == {};
    } else {
      RunsKeepSysInv(ss, es, n - 1);
      StepKeepsInv(ss[n - 1], es[n - 1]);
    }
  }

  // ---- the two promises -----------------------------------------------------------

  // Convergence: in every reachable state each object either has a journal
  // entry past the device's cursor, or the device has it exactly as the server.
  lemma EveryObjectIsCurrentOrComing(ss: seq<Sys>, es: seq<Event>, n: nat, d: Id, o: Id)
    requires IsRun(ss, es) && n <= |es| && d in ss[n].clients && o in ss[n].t.objects
    ensures Current(ss[n].t, ss[n].clients[d].replica, o)
         || exists e :: e in ss[n].t.journal && e.oid == o && e.seqNo > ss[n].clients[d].cursor
  {
    RunsKeepSysInv(ss, es, n);
    LastSeqBounds(ss[n].t.journal, o);
    assert IsChain(ss[n].t.objects[o], Of(ss[n].t.journal, o));
  }

  // The replica a fully synced device holds.
  ghost predicate SameAsServer(t: Tables, replica: map<Id, Copy>) {
    && (forall o :: o in replica <==> o in t.objects && !t.objects[o].deleted)
    && (forall o :: o in replica ==> replica[o].rev == t.objects[o].rev && SameData(replica[o], t.objects[o]))
  }

  lemma CaughtUpIsEqual(t: Tables, d: Id, cl: Client)
    requires Inv(t) && ClientOk(t, d, cl) && HeadSeq(t.journal) <= cl.cursor
    ensures SameAsServer(t, cl.replica)
  {
    forall o | o in t.objects ensures Current(t, cl.replica, o) {
      LastSeqBounds(t.journal, o);
      assert IsChain(t.objects[o], Of(t.journal, o));
      var e :| e in t.journal && e.oid == o && e.seqNo == LastSeq(t.journal, o);
      HeadIsLast(t.journal);
    }
  }

  // A device whose cursor has reached the head equals the server.
  lemma SyncedDeviceEqualsServer(ss: seq<Sys>, es: seq<Event>, n: nat, d: Id)
    requires IsRun(ss, es) && n <= |es| && d in ss[n].clients && HeadSeq(ss[n].t.journal) <= ss[n].clients[d].cursor
    ensures SameAsServer(ss[n].t, ss[n].clients[d].replica)
  {
    RunsKeepSysInv(ss, es, n);
    CaughtUpIsEqual(ss[n].t, d, ss[n].clients[d]);
  }

  // Compaction never hides a delete: whatever an active device still holds is
  // still a row on the server, and if that row is a tombstone its delete is
  // still in the journal, past the device's cursor.
  lemma NoDeleteIsHidden(ss: seq<Sys>, es: seq<Event>, n: nat, d: Id, o: Id)
    requires IsRun(ss, es) && n <= |es| && d in SyncDevices(ss[n].t)
    ensures d in ss[n].clients
    ensures o in ss[n].clients[d].replica ==> o in ss[n].t.objects
    ensures o in ss[n].clients[d].replica && ss[n].t.objects[o].deleted ==>
      exists e :: e in ss[n].t.journal && e.oid == o && e.op == Delete && e.seqNo > ss[n].clients[d].cursor
  {
    RunsKeepSysInv(ss, es, n);
    var t := ss[n].t;
    assert ClientOk(t, d, ss[n].clients[d]);
    if o in ss[n].clients[d].replica && t.objects[o].deleted {
      LastSeqBounds(t.journal, o);
      assert IsChain(t.objects[o], Of(t.journal, o));
      var e :| e in t.journal && e.oid == o && e.seqNo == LastSeq(t.journal, o);
      EntryInChain(t, e);
    }
  }
}
