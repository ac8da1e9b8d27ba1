// Every write the server makes to its tables, and what all of them keep.

module Server {
  import opened Wrappers
  import opened Model
  import opened Access
  import opened PushSpec
  import opened Sums
  import opened Writes
  import opened Refs
  import opened Chain
  import opened Quota
  import opened Idempotency
  import opened Gc
  import opened Forest

  datatype Action =
    | DoPush(dev: Caller, k: string, items: seq<Input>)
    | DoLateCommit(dev: Caller, k: string, items: seq<Input>)   // a push that missed the cache before another copy
    | DoUpload(user: Id, h: Hash, size: nat)
    | DoAck(d: Id, n: int)
    | DoCollect
    | DoRepair
    | DoCreate(id: Id, owner: Id, kind: string, name: string, parent: Id, root: Id)   // owner and root as read earlier
    | DoMove(id: Id, parent: Id, root: Id)                                            // root as read earlier
    | DoTombstone(id: Id)
    | DoRename(id: Id, name: string)
    | DoMirror(id: Id, on: bool, d: Id)
    | DoAdmin(users: map<Id, User>, members: set<(Id, Id)>, shares: map<ShareKey, bool>)
    | DoRegister(d: Id, sync: bool)
    | DoRevoke(d: Id)

  // What the environment guarantees about a call: ids are fresh and device
  // ids are ULIDs.
  ghost predicate Environment(t: Tables, a: Action) {
    match a
    case DoPush(dev, _, _) => NoColon(dev.id)
    case DoLateCommit(dev, k, items) => NoColon(dev.id) && k != "" && 1 <= |items| <= MAX_BATCH
    case DoUpload(_, h, _) => h != ""
    case DoCreate(id, _, _, _, _, _) => id != "" && id !in t.collections
    case DoAck(d, _) => d in t.devices
    case DoRegister(d, _) => d !in t.devices
    case _ => true
  }

  // What the reads of a create or a move leave true for its write, however
  // much later that is.
  predicate Knows(cols: Collections, a: Action) {
    match a
    case DoCreate(id, owner, _, _, parent, root) => Told(cols, id, owner, parent, root)
    case DoMove(id, parent, root) => id in cols && Told(cols, id, cols[id].owner, parent, root)
    case _ => true
  }

  ghost predicate Allowed(t: Tables, a: Action) { Environment(t, a) && Knows(t.collections, a) }

  // PutUserBlob.
  function Upload(t: Tables, user: Id, h: Hash, size: nat): Tables {
    t.(blobs := if h in t.blobs then t.blobs else t.blobs[h := Blob(size, 0)],
       files := t.files + {h},
       blobRefs := AddRef(t.blobRefs, user, h))
  }

  // Ack: refused ahead of the journal, and never moved backwards.
  function AckError(t: Tables, n: int): bool { n < 0 || n > HeadSeq(t.journal) }

  function Ack(t: Tables, d: Id, n: int): Tables {
    if AckError(t, n) || (d in t.acks && n < t.acks[d]) then t else t.(acks := t.acks[d := n])
  }

  function Tombstone(t: Tables, id: Id): Tables {
    if id !in t.collections || t.collections[id].deleted then t
    else t.(collections := t.collections[id := t.collections[id].(deleted := true, rev := t.collections[id].rev + 1)],
            shares := map k | k in t.shares && k.col != id :: t.shares[k])
  }

  // RenameCollection, and the mirror flag of a collection's metadata.
  function Rename(cols: Collections, id: Id, name: string): Collections {
    if name == "" || id !in cols || cols[id].deleted || NameTaken(cols, cols[id].owner, cols[id].kind, cols[id].parent, name, id) then cols
    else cols[id := cols[id].(name := name, rev := cols[id].rev + 1)]
  }

  function Mirror(cols: Collections, id: Id, on: bool, d: Id): Collections {
    if id !in cols || cols[id].deleted then cols
    else cols[id := cols[id].(mirror := on, mirrorDevice := d, rev := cols[id].rev + 1)]
  }

  // A move that is refused, or whose query never ends, commits nothing.
  ghost function AfterMove(cols: Collections, id: Id, parent: Id, root: Id): Collections {
    match CommitMove(cols, id, parent, root) case Committed(cols') => cols' case _ => cols
  }

  ghost function Next(t: Tables, a: Action): Tables {
    match a
    case DoPush(dev, k, items) => Push(t, dev, k, items).0
    case DoLateCommit(dev, k, items) => Commit(t, dev, ScopedKey(dev, k), items).0
    case DoUpload(user, h, size) => Upload(t, user, h, size)
    case DoAck(d, n) => Ack(t, d, n)
    case DoCollect => Collect(t)
    case DoRepair => Repair(t)
    case DoCreate(id, owner, kind, name, parent, root) =>
      if InsertError(t.collections, owner, kind, name, parent) != NoColError then t
      else t.(collections := Insert(t.collections, id, owner, kind, name, parent, root))
    case DoMove(id, parent, root) => t.(collections := AfterMove(t.collections, id, parent, root))
    case DoTombstone(id) => Tombstone(t, id)
    case DoRename(id, name) => t.(collections := Rename(t.collections, id, name))
    case DoMirror(id, on, d) => t.(collections := Mirror(t.collections, id, on, d))
    case DoAdmin(users, members, shares) => t.(users := users, members := members, shares := shares)
    case DoRegister(d, sync) => t.(devices := t.devices[d := DeviceRow(sync, false)])
    case DoRevoke(d) => if d in t.devices then t.(devices := t.devices[d := DeviceRow(t.devices[d].sync, true)]) else t
  }

  // Objects and journal entries name known collections.
  ghost predicate PlacesKnown(t: Tables) {
    && (forall o :: o in t.objects ==> t.objects[o].col in t.collections)
    && (forall i :: 0 <= i < |t.journal| ==> t.journal[i].col in t.collections)
  }

  ghost predicate AcksKnown(t: Tables) {
    forall d :: d in t.acks ==> d in t.devices && t.acks[d] <= t.lastSeq
  }

  // What integrity.Check looks for, made inductive.
  ghost predicate Inv(t: Tables) {
    && RefInv(t)
    && JournalInv(t)
    && ChargesExact(t)
    && KeysScoped(t)
    && LinksInv(t.collections)
    && PlacesKnown(t)
    && AcksKnown(t)
  }

  function Empty(maxBlob: int): Tables {
    Tables(map[], [], 0, map[], {}, {}, map[], map[], {}, map[], map[], map[], map[], maxBlob)
  }

  lemma EmptyIsInv(maxBlob: int)
    ensures Inv(Empty(maxBlob)) && LiveObjectsInLiveCollections(Empty(maxBlob))
  {
    assert Ranked(Empty(maxBlob).collections, map[]);
  }

  // ---- pushes --------------------------------------------------------------

  lemma PutKeepsPlaces(t: Tables, oid: Id, w: RowWrite, dev: Id, key: string)
    requires PlacesKnown(t) && ValidWrite(t, oid, w)
    ensures PlacesKnown(Put(t, oid, w, dev, key))
  {
    hide MoveRefs, ValidId, Extra, Cost, QuotaAllows, CollectionOwner, LiveExtra;
  }

  lemma InvParts(t: Tables)
    requires Inv(t)
    ensures KeysScoped(t) && LinksInv(t.collections) && AcksKnown(t) && JournalInv(t)
  {}

  // The invariants read only these tables.
  lemma Frame(t: Tables, t': Tables)
    requires Inv(t) && t'.objects == t.objects && t'.journal == t.journal && t'.lastSeq == t.lastSeq
    requires t'.blobs == t.blobs && t'.files == t.files
    requires t.collections.Keys <= t'.collections.Keys && LinksInv(t'.collections)
    requires KeysScoped(t') && AcksKnown(t')
    ensures Inv(t')
  {
    hide RefInv, JournalInv, ChargesExact, LinksInv, KeysScoped, AcksKnown;
    FrameRefs(t, t');
    FrameJournal(t, t');
    FrameCharges(t, t');
  }

  lemma FrameRefs(t: Tables, t': Tables)
    requires RefInv(t) && t'.objects == t.objects && t'.blobs == t.blobs && t'.files == t.files
    ensures RefInv(t')
  {
    hide Recount, Extra;
  }

  lemma FrameJournal(t: Tables, t': Tables)
    requires JournalInv(t) && t'.objects == t.objects && t'.journal == t.journal && t'.lastSeq == t.lastSeq
    ensures JournalInv(t')
  {
    hide IsChain, Of, InSeqOrder;
  }

  lemma FrameCharges(t: Tables, t': Tables)
    requires ChargesExact(t) && t'.objects == t.objects && t'.blobs == t.blobs
    ensures ChargesExact(t')
  {
    hide Cost, BlobSize;
  }

  lemma ItemKeepsInv(t: Tables, dev: Caller, key: string, inp: Input)
    requires Inv(t)
    ensures Inv(ApplyOne(t, dev, key, inp).0)
  {
    hide Decide, RefInv, LinksInv, ValidWrite, Put;
    DecisionsAreValid(t, dev, inp);
    ItemFrame(t, dev, key, inp);
    var d := Decide(t, dev, inp);
    var t1 := t.(blobRefs := d.refs);
    Frame(t, t1);
    hide JournalInv, ChargesExact, PlacesKnown, KeysScoped;
    if d.write.Some? {
      SameWrite(t, t1, inp.oid, d.write.value);
      WriteKeepsInv(t1, inp.oid, d.write.value, dev.id, key);
    }
  }

  lemma WriteKeepsInv(t: Tables, oid: Id, w: RowWrite, dev: Id, key: string)
    requires Inv(t) && ValidWrite(t, oid, w)
    ensures Inv(Put(t, oid, w, dev, key))
  {
    hide RefInv, JournalInv, ChargesExact, PlacesKnown, LinksInv, ValidWrite, MoveRefs;
    PutKeepsRefs(t, oid, w, dev, key);
    PutKeepsJournal(t, oid, w, dev, key);
    PutKeepsCharges(t, oid, w, dev, key);
    PutKeepsPlaces(t, oid, w, dev, key);
  }

  lemma {:induction false} BatchKeepsInv(t: Tables, dev: Caller, key: string, items: seq<Input>)
    requires Inv(t)
    ensures Inv(ApplyAll(t, dev, key, items).0)
    decreases |items|
  {
    hide ApplyOne, Inv;
    if items != [] {
      BatchKeepsInv(t, dev, key, items[..|items| - 1]);
      ItemKeepsInv(ApplyAll(t, dev, key, items[..|items| - 1]).0, dev, key, items[|items| - 1]);
    }
  }

  lemma CommitKeepsInv(t: Tables, dev: Caller, k: string, items: seq<Input>)
    requires Inv(t) && NoColon(dev.id)
    ensures Inv(Commit(t, dev, ScopedKey(dev, k), items).0)
  {
    hide ApplyAll, KeysScoped, LinksInv, Commit;
    BatchKeepsInv(t, dev, ScopedKey(dev, k), items);
    CommitKeepsKeys(t, dev, k, items);
    var t' := ApplyAll(t, dev, ScopedKey(dev, k), items).0;
    var t2 := Commit(t, dev, ScopedKey(dev, k), items).0;
    CommitShape(t, dev, ScopedKey(dev, k), items);
    if t2 != t { Frame(t', t2); }
  }

  lemma CommitShape(t: Tables, dev: Caller, key: string, items: seq<Input>)
    ensures var t2 := Commit(t, dev, key, items).0; t2 == t || t2 == ApplyAll(t, dev, key, items).0.(idem := t2.idem)
  {
    hide ApplyAll;
  }

  // ---- the other writes -----------------------------------------------------

  lemma UploadKeepsRefs(t: Tables, user: Id, h: Hash, size: nat)
    requires RefInv(t) && h != ""
    ensures RefInv(Upload(t, user, h, size))
  {
    hide Recount, Extra;
    var t' := Upload(t, user, h, size);
    if h !in t.blobs {
      forall o | o in t.objects ensures Uses(t.objects[o], h) == 0 {
        if !t.objects[o].deleted { assert Extra(t.objects[o].meta) <= t.blobs.Keys; }
      }
      RecountCovers(t.objects, h);
    }
    assert CountsExact(t') && LiveRefsStored(t');
  }

  lemma UploadKeepsCharges(t: Tables, user: Id, h: Hash, size: nat)
    requires ChargesExact(t) && LiveRefsStored(t)
    ensures ChargesExact(Upload(t, user, h, size))
  {
    hide Cost, BlobSize, Extra;
    var t' := Upload(t, user, h, size);
    forall o | o in t.objects && !t.objects[o].deleted
      ensures var row := t.objects[o];
        Cost(t'.blobs, row.size, row.blob, row.meta) == Cost(t.blobs, row.size, row.blob, row.meta)
        && BlobSize(t'.blobs, row.blob) == BlobSize(t.blobs, row.blob)
    {
      CostOnSubmap(t'.blobs, t.blobs, t.objects[o]);
    }
  }

  lemma UploadKeepsInv(t: Tables, user: Id, h: Hash, size: nat)
    requires Inv(t) && h != ""
    ensures Inv(Upload(t, user, h, size))
  {
    hide LiveRefsStored, CountsExact, ChargesExact, LinksInv, KeysScoped, IsChain, Of, InSeqOrder;
    var t' := Upload(t, user, h, size);
    UploadKeepsRefs(t, user, h, size);
    UploadKeepsCharges(t, user, h, size);
    SameIdem(t, t');
  }

  lemma SameIdem(t: Tables, t1: Tables)
    requires t.idem == t1.idem && KeysScoped(t)
    ensures KeysScoped(t1)
  {}

  lemma RepairKeepsInv(t: Tables)
    requires Inv(t)
    ensures Repair(t) == t
  {
    RepairRestores(t);
  }

  lemma CollectKeepsPlaces(t: Tables)
    requires PlacesKnown(t)
    ensures PlacesKnown(Collect(t))
  {
    hide Compactable, Without, Recount;
    WithoutMembers(t.journal, Tombstones(t));
    var t' := Collect(t);
    forall i | 0 <= i < |t'.journal| ensures t'.journal[i].col in t'.collections {
      assert t'.journal[i] in t'.journal;
      var k :| 0 <= k < |t.journal| && t.journal[k] == t'.journal[i];
    }
  }

  lemma CollectKeepsInv(t: Tables)
    requires Inv(t)
    ensures Inv(Collect(t))
  {
    hide RefInv, JournalInv, ChargesExact, Compactable, Without, Recount, LinksInv, PlacesKnown;
    CollectKeepsRefs(t);
    CollectKeepsJournal(t);
    CollectKeepsCharges(t);
    CollectKeepsPlaces(t);
  }

  // Collection edits that leave ids, parents, roots and owners alone.
  ghost predicate SameShape(c1: Collections, c2: Collections) {
    c1.Keys == c2.Keys && forall c :: c in c1 ==>
      c1[c].parent == c2[c].parent && c1[c].root == c2[c].root && c1[c].owner == c2[c].owner
  }

  lemma SameShapeKeepsLinks(c1: Collections, c2: Collections)
    requires SameShape(c1, c2) && LinksInv(c1)
    ensures LinksInv(c2)
  {
    hide Acyclic;
    SameLinks(c1, c2);
    forall c | c in c2 ensures OwnerOk(c2, c) { assert OwnerOk(c1, c); }
  }

  lemma SameShapeKeepsForest(c1: Collections, c2: Collections)
    requires SameShape(c1, c2) && ForestInv(c1)
    ensures ForestInv(c2)
  {
    hide LinksInv;
    SameShapeKeepsLinks(c1, c2);
    forall c | c in c2 ensures RootOk(c2, c) { assert RootOk(c1, c); }
  }

  // Every single write keeps every invariant.
  lemma NextKeepsInv(t: Tables, a: Action)
    requires Inv(t) && Allowed(t, a)
    ensures Inv(Next(t, a))
  {
    hide Inv, Push, Commit, Upload, Ack, Collect, Repair, InsertError, AfterMove, Rename, Mirror, Tombstone, Told;
    match a
    case DoPush(dev, k, items) => PushKeepsInv(t, dev, k, items);
    case DoLateCommit(dev, k, items) => CommitKeepsInv(t, dev, k, items);
    case DoUpload(user, h, size) => UploadKeepsInv(t, user, h, size);
    case DoAck(d, n) => AckKeepsInv(t, d, n);
    case DoCollect => CollectKeepsInv(t);
    case DoRepair => RepairKeepsInv(t);
    case DoAdmin(_, _, _) => UsersKeepInv(t, a);
    case DoRegister(_, _) => UsersKeepInv(t, a);
    case DoRevoke(_) => UsersKeepInv(t, a);
    case DoCreate(_, _, _, _, _, _) => CreateKeepsInv(t, a);
    case DoMove(_, _, _) => MoveKeepsInv(t, a);
    case DoTombstone(_) => EditKeepsInv(t, a);
    case DoRename(_, _) => EditKeepsInv(t, a);
    case DoMirror(_, _, _) => EditKeepsInv(t, a);
  }

  lemma UsersKeepInv(t: Tables, a: Action)
    requires Inv(t) && (a.DoAdmin? || a.DoRegister? || a.DoRevoke?)
    ensures Inv(Next(t, a))
  {
    hide Inv, Push, Commit, Upload, Ack, Collect, Repair, InsertError, AfterMove, Rename, Mirror, Tombstone;
    match a
    case DoAdmin(users, members, shares) => AdminKeepsInv(t, t.(users := users, members := members, shares := shares));
    case DoRegister(d, sync) => AdminKeepsInv(t, t.(devices := t.devices[d := DeviceRow(sync, false)]));
    case DoRevoke(d) => AdminKeepsInv(t, Next(t, a));
  }

  lemma PushKeepsInv(t: Tables, dev: Caller, k: string, items: seq<Input>)
    requires Inv(t) && NoColon(dev.id)
    ensures Inv(Push(t, dev, k, items).0)
  {
    hide Commit, Inv;
    CommitKeepsInv(t, dev, k, items);
  }

  // Tables that differ in their collections only.
  lemma CollectionsKeepInv(t: Tables, t': Tables)
    requires Inv(t) && t' == t.(collections := t'.collections)
    requires t.collections.Keys <= t'.collections.Keys && LinksInv(t'.collections)
    ensures Inv(t')
  {
    InvParts(t);
    hide Inv, JournalInv, LinksInv, KeysScoped;
    SameIdem(t, t');
    assert AcksKnown(t');
    hide AcksKnown;
    Frame(t, t');
  }

  lemma CreateKeepsInv(t: Tables, a: Action)
    requires Inv(t) && Allowed(t, a) && a.DoCreate?
    ensures Inv(Next(t, a))
  {
    hide Inv, LinksInv, InsertError, Told;
    InvParts(t);
    InsertKeepsLinks(t.collections, a.id, a.owner, a.kind, a.name, a.parent, a.root);
    CollectionsKeepInv(t, t.(collections := Insert(t.collections, a.id, a.owner, a.kind, a.name, a.parent, a.root)));
  }

  lemma MoveKeepsInv(t: Tables, a: Action)
    requires Inv(t) && Allowed(t, a) && a.DoMove?
    ensures Inv(Next(t, a))
  {
    hide Inv, CommitMove, LinksInv, Told;
    InvParts(t);
    if CommitMove(t.collections, a.id, a.parent, a.root).Committed? {
      CommittedMoveKeepsLinks(t.collections, a.id, a.parent, a.root);
      MoveFrame(t.collections, a.id, a.parent, a.root);
      CollectionsKeepInv(t, Next(t, a));
    }
  }

  // A tombstone, a rename or a mirror flag changes one row, and not its place.
  lemma RenameShape(cols: Collections, id: Id, name: string)
    ensures SameShape(cols, Rename(cols, id, name))
  {
    hide NameTaken;
  }

  lemma MirrorShape(cols: Collections, id: Id, on: bool, d: Id)
    ensures SameShape(cols, Mirror(cols, id, on, d))
  {}

  // The flag and the device that fills the mirror, on a live collection.
  lemma MirrorIsSet(cols: Collections, id: Id, on: bool, d: Id)
    requires id in cols
    ensures var cols' := Mirror(cols, id, on, d);
      && cols'.Keys == cols.Keys && (forall c :: c in cols && c != id ==> cols'[c] == cols[c])
      && (!cols[id].deleted ==> cols'[id].mirror == on && cols'[id].mirrorDevice == d)
      && (cols[id].deleted ==> cols'[id] == cols[id])
  {}

  function Tombstoned(cols: Collections, id: Id): Collections {
    if id !in cols || cols[id].deleted then cols else cols[id := cols[id].(deleted := true, rev := cols[id].rev + 1)]
  }

  lemma TombstonedShape(cols: Collections, id: Id)
    ensures SameShape(cols, Tombstoned(cols, id))
  {}

  lemma EditShape(t: Tables, a: Action)
    requires a.DoTombstone? || a.DoRename? || a.DoMirror?
    ensures var t' := Next(t, a);
      t' == t.(collections := t'.collections, shares := t'.shares) && SameShape(t.collections, t'.collections)
  {
    hide SameShape, Rename, Mirror, Push, Commit, Upload, Ack, Collect, Repair, InsertError, AfterMove;
    match a
    case DoTombstone(id) => TombstonedShape(t.collections, id);
    case DoRename(id, name) => RenameShape(t.collections, id, name);
    case DoMirror(id, on, d) => MirrorShape(t.collections, id, on, d);
  }

  lemma EditKeepsInv(t: Tables, a: Action)
    requires Inv(t) && (a.DoTombstone? || a.DoRename? || a.DoMirror?)
    ensures Inv(Next(t, a))
  {
    hide Inv, Next, LinksInv, JournalInv, KeysScoped, AcksKnown;
    var t' := Next(t, a);
    EditShape(t, a);
    InvParts(t);
    SameShapeKeepsLinks(t.collections, t'.collections);
    hide SameShape;
    var t1 := t.(collections := t'.collections);
    CollectionsKeepInv(t, t1);
    AdminKeepsInv(t1, t');
  }

  lemma TombstoneKeepsInv(t: Tables, id: Id)
    requires Inv(t)
    ensures Inv(Tombstone(t, id))
  {
    hide Inv, Tombstone;
    EditKeepsInv(t, DoTombstone(id));
  }

  // Users, groups, shares and devices are outside the invariants, as long as
  // no device row disappears.
  lemma AdminKeepsInv(t: Tables, t': Tables)
    requires Inv(t) && t.devices.Keys <= t'.devices.Keys
    requires t' == t.(users := t'.users, members := t'.members, shares := t'.shares, devices := t'.devices)
    ensures Inv(t')
  {
    InvParts(t);
    hide Inv, JournalInv, LinksInv, KeysScoped;
    SameIdem(t, t');
    assert AcksKnown(t');
    hide AcksKnown;
    Frame(t, t');
  }

  lemma AckKeepsInv(t: Tables, d: Id, n: int)
    requires Inv(t) && d in t.devices
    ensures Inv(Ack(t, d, n))
  {
    hide Inv, KeysScoped, JournalInv;
    InvParts(t);
    hide LinksInv;
    var t' := Ack(t, d, n);
    if t' != t {
      assert AcksKnown(t') by { HeadIsBounded(t); hide JournalInv; }
      hide AcksKnown;
      SameIdem(t, t');
      Frame(t, t');
    }
  }

  lemma HeadIsBounded(t: Tables)
    requires JournalInv(t)
    ensures HeadSeq(t.journal) <= t.lastSeq
  {}

  // ---- what the reads of a request leave true ------------------------------------

  // Collections never go and never change owner.
  predicate Later(c0: Collections, c1: Collections) {
    c0.Keys <= c1.Keys && forall c :: c in c0 ==> c1[c].owner == c0[c].owner
  }

  lemma KnowsLater(c0: Collections, c1: Collections, a: Action)
    requires Later(c0, c1) && Knows(c0, a)
    ensures Knows(c1, a)
  {}

  lemma MoveIsLater(cols: Collections, id: Id, parent: Id, root: Id)
    requires "" !in cols
    ensures Later(cols, AfterMove(cols, id, parent, root))
  {
    hide CommitMove, AncestorOrSelf;
    if CommitMove(cols, id, parent, root).Committed? { MoveFrame(cols, id, parent, root); }
  }

  lemma CollectionsStay(t: Tables, a: Action)
    requires !a.DoCreate? && !a.DoMove? && !a.DoTombstone? && !a.DoRename? && !a.DoMirror?
    ensures Next(t, a).collections == t.collections
  {
    hide ApplyAll, Compactable, Recount, Tombstone, AfterMove;
    match a
    case DoPush(dev, k, items) => BatchFrame(t, dev, ScopedKey(dev, k), items);
    case DoLateCommit(dev, k, items) => BatchFrame(t, dev, ScopedKey(dev, k), items);
    case _ =>
  }

  lemma InsertIsLater(t: Tables, a: Action)
    requires a.DoCreate? && a.id !in t.collections
    ensures Later(t.collections, Next(t, a).collections)
  {
    hide InsertError;
  }

  lemma NextIsLater(t: Tables, a: Action)
    requires "" !in t.collections && Environment(t, a)
    ensures Later(t.collections, Next(t, a).collections)
  {
    if a.DoCreate? {
      InsertIsLater(t, a);
    } else if a.DoMove? {
      MoveIsLater(t.collections, a.id, a.parent, a.root);
    } else {
      hide Next;
      if a.DoTombstone? || a.DoRename? || a.DoMirror? { EditShape(t, a); } else { CollectionsStay(t, a); }
    }
  }

  // What a request reads before its write: the checks pass, and owner and root
  // are those of the parent at that moment.
  predicate Finds(cols: Collections, a: Action) {
    match a
    case DoCreate(id, owner, kind, name, parent, root) =>
      ReadCreate(cols, kind, name, parent) == NoColError && root == RootNow(cols, id, parent) && owner == OwnerNow(cols, owner, parent)
    case DoMove(id, parent, root) => ReadMove(cols, id, parent) == NoColError && root == RootNow(cols, id, parent)
    case _ => false
  }

  lemma FindsIsKnown(cols: Collections, a: Action)
    requires LinksInv(cols) && Finds(cols, a)
    ensures Knows(cols, a)
  {
    hide Acyclic;
    if a.parent in cols { assert OwnerOk(cols, a.parent); }
  }

  // ---- runs -----------------------------------------------------------------

  // The server with the reads its requests have made so far: the write of a
  // create or a move is a later step, with any other writes in between.
  datatype Srv = Srv(t: Tables, known: set<Action>)

  datatype Step = Looks(a: Action) | Writes(a: Action)

  ghost predicate Possible(s: Srv, e: Step) {
    match e
    case Looks(a) => Finds(s.t.collections, a)
    case Writes(a) => Environment(s.t, a) && (a.DoCreate? || a.DoMove? ==> a in s.known)
  }

  ghost function After(s: Srv, e: Step): Srv {
    match e
    case Looks(a) => s.(known := s.known + {a})
    case Writes(a) => s.(t := Next(s.t, a))
  }

  ghost predicate SrvInv(s: Srv) { Inv(s.t) && forall a :: a in s.known ==> Knows(s.t.collections, a) }

  ghost function RunAll(s: Srv, run: seq<Step>): Srv
    decreases |run|
  {
    if run == [] then s else After(RunAll(s, run[..|run| - 1]), run[|run| - 1])
  }

  ghost predicate PossibleRun(s: Srv, run: seq<Step>)
    decreases |run|
  {
    run == [] || (PossibleRun(s, run[..|run| - 1]) && Possible(RunAll(s, run[..|run| - 1]), run[|run| - 1]))
  }

  lemma WriteIsAllowed(s: Srv, a: Action)
    requires SrvInv(s) && Possible(s, Writes(a))
    ensures Allowed(s.t, a)
  {
    hide Inv, Environment;
  }

  // Every step keeps every invariant, and what every request knows.
  lemma StepKeepsSrvInv(s: Srv, e: Step)
    requires SrvInv(s) && Possible(s, e)
    ensures SrvInv(After(s, e))
  {
    hide Inv, Next, Environment, Knows, Later;
    InvParts(s.t);
    match e
    case Looks(a) => FindsIsKnown(s.t.collections, a); hide Inv, Knows, Finds;
    case Writes(a) =>
      WriteIsAllowed(s, a);
      NextKeepsInv(s.t, a);
      NextIsLater(s.t, a);
      forall r | r in s.known ensures Knows(Next(s.t, a).collections, r) {
        KnowsLater(s.t.collections, Next(s.t, a).collections, r);
      }
  }

  // Every state of every run from a consistent start is consistent, whatever
  // comes between the reads and the write of a request.
  lemma {:induction false} RunsKeepInv(s: Srv, run: seq<Step>)
    requires SrvInv(s) && PossibleRun(s, run)
    ensures SrvInv(RunAll(s, run))
    decreases |run|
  {
    hide SrvInv, Possible, After;
    if run != [] {
      RunsKeepInv(s, run[..|run| - 1]);
      StepKeepsSrvInv(RunAll(s, run[..|run| - 1]), run[|run| - 1]);
    }
  }

  // ---- when the roots stay cached -------------------------------------------------

  // The write has no effect on the links, or carries the root its parent has
  // at that moment.
  ghost predicate CarriesRoot(t: Tables, a: Action) {
    match a
    case DoCreate(id, owner, kind, name, parent, root) =>
      InsertError(t.collections, owner, kind, name, parent) == NoColError ==> root == RootNow(t.collections, id, parent)
    case DoMove(id, parent, root) =>
      CommitMove(t.collections, id, parent, root).Committed? ==> root == RootNow(t.collections, id, parent)
    case _ => true
  }

  lemma MoveKeepsForestExactly(t: Tables, a: Action)
    requires ForestInv(t.collections) && a.DoMove? && Knows(t.collections, a)
    ensures ForestInv(AfterMove(t.collections, a.id, a.parent, a.root)) <==> CarriesRoot(t, a)
  {
    hide CommitMove, ForestInv, Told;
    if CommitMove(t.collections, a.id, a.parent, a.root).Committed? {
      CommittedMoveKeepsForestExactly(t.collections, a.id, a.parent, a.root);
    }
  }

  // A write keeps a forest exactly if it carries the current root.
  lemma NextKeepsForestExactly(t: Tables, a: Action)
    requires ForestInv(t.collections) && Allowed(t, a)
    ensures ForestInv(Next(t, a).collections) <==> CarriesRoot(t, a)
  {
    hide ForestInv;
    if a.DoCreate? {
      InsertKeepsForestExactly(t.collections, a.id, a.owner, a.kind, a.name, a.parent, a.root);
      hide InsertError, Told;
    } else if a.DoMove? {
      hide Told, CarriesRoot, AfterMove;
      MoveKeepsForestExactly(t, a);
    } else {
      hide Next;
      if a.DoTombstone? || a.DoRename? || a.DoMirror? { EditKeepsForest(t, a); } else { CollectionsStay(t, a); }
    }
  }

  lemma EditKeepsForest(t: Tables, a: Action)
    requires ForestInv(t.collections) && (a.DoTombstone? || a.DoRename? || a.DoMirror?)
    ensures ForestInv(Next(t, a).collections)
  {
    hide Next, SameShape;
    EditShape(t, a);
    SameShapeKeepsForest(t.collections, Next(t, a).collections);
  }

  ghost predicate ForestBefore(s: Srv, run: seq<Step>, n: nat)
    requires n <= |run|
  {
    ForestInv(RunAll(s, run[..n]).t.collections)
  }

  ghost predicate CarriesAt(s: Srv, run: seq<Step>, n: nat)
    requires n < |run|
  {
    run[n].Writes? ==> CarriesRoot(RunAll(s, run[..n]).t, run[n].a)
  }

  lemma {:induction false} RunPrefix(s: Srv, run: seq<Step>, k: nat)
    requires PossibleRun(s, run) && k <= |run|
    ensures PossibleRun(s, run[..k])
    ensures k < |run| ==> Possible(RunAll(s, run[..k]), run[k]) && RunAll(s, run[..k + 1]) == After(RunAll(s, run[..k]), run[k])
    decreases |run|
  {
    hide Possible, After;
    if k == |run| {
      assert run[..k] == run;
    } else if k + 1 == |run| {
      assert run[..k + 1] == run;
    } else {
      var front := run[..|run| - 1];
      RunPrefix(s, front, k);
      assert front[..k] == run[..k] && front[..k + 1] == run[..k + 1];
    }
  }

  lemma OneMoreIsForest(s: Srv, run: seq<Step>, k: nat)
    requires SrvInv(s) && PossibleRun(s, run) && k < |run| && ForestBefore(s, run, k)
    ensures ForestBefore(s, run, k + 1) <==> CarriesAt(s, run, k)
  {
    hide ForestInv, CarriesRoot, SrvInv, RunAll, Allowed, PossibleRun, Possible, Next;
    RunPrefix(s, run, k);
    RunsKeepInv(s, run[..k]);
    var r := RunAll(s, run[..k]);
    if run[k].Writes? {
      WriteIsAllowed(r, run[k].a);
      NextKeepsForestExactly(r.t, run[k].a);
    }
  }

  lemma {:induction false} CarryingKeepsForest(s: Srv, run: seq<Step>, k: nat)
    requires SrvInv(s) && ForestInv(s.t.collections) && PossibleRun(s, run) && k <= |run|
    requires forall n: nat :: n < |run| ==> CarriesAt(s, run, n)
    ensures ForestBefore(s, run, k)
  {
    if k == 0 {
      assert run[..0] == [];
    } else {
      CarryingKeepsForest(s, run, k - 1);
      OneMoreIsForest(s, run, k - 1);
    }
  }

  // Along a run every state is a forest exactly if every write carries the
  // root its parent has when it commits.
  lemma RunKeepsForestExactly(s: Srv, run: seq<Step>)
    requires SrvInv(s) && ForestInv(s.t.collections) && PossibleRun(s, run)
    ensures (forall n: nat :: n <= |run| ==> ForestBefore(s, run, n)) <==> (forall n: nat :: n < |run| ==> CarriesAt(s, run, n))
  {
    hide ForestInv, SrvInv, PossibleRun, ForestBefore, CarriesAt;
    if forall n: nat :: n < |run| ==> CarriesAt(s, run, n) {
      forall n: nat | n <= |run| ensures ForestBefore(s, run, n) { CarryingKeepsForest(s, run, n); }
    }
    if forall n: nat :: n <= |run| ==> ForestBefore(s, run, n) {
      forall n: nat | n < |run| ensures CarriesAt(s, run, n) { OneMoreIsForest(s, run, n); }
    }
  }

  // A run that leaves the forest although every move passed the check: x reads
  // the root of p, p moves below q, and x then moves below p.
  lemma StaleRootRun(s: Srv, x: Id, p: Id, q: Id)
    requires var cols := s.t.collections;
      && SrvInv(s) && ForestInv(cols) && x != p && p != q && q != x && {x, p, q} <= cols.Keys
      && cols[x].parent == "" && cols[p].parent == "" && cols[q].parent == "" && cols[p].owner == cols[q].owner
      && ReadMove(cols, x, p) == NoColError && UpdateError(cols, p, q) == NoColError
      && (var once := CommitMove(cols, p, q, q); once.Committed? ==> UpdateError(once.cols, x, p) == NoColError)
    ensures var run := [Looks(DoMove(x, p, p)), Looks(DoMove(p, q, q)), Writes(DoMove(p, q, q)), Writes(DoMove(x, p, p))];
      PossibleRun(s, run) && !ForestInv(RunAll(s, run).t.collections)
  {
    hide ForestInv, NameTaken, SrvInv, LinksInv, CommitMove, UpdateError, Finds, ReadMove, RootNow, PossibleRun, RunAll, Possible, After, ProvenlyOutside;
    var cols := s.t.collections;
    StaleRootIsCommitted(cols, x, p, q);
    MovesAreFound(cols, x, p, q);
    var m1, m2 := DoMove(x, p, p), DoMove(p, q, q);
    RunOfFour(s, Looks(m1), Looks(m2), Writes(m2), Writes(m1));
    TwoMoves(s, m1, m2);
  }

  lemma MovesAreFound(cols: Collections, x: Id, p: Id, q: Id)
    requires {x, p, q} <= cols.Keys && cols[p].owner == cols[q].owner && RootNow(cols, x, p) == p && RootNow(cols, p, q) == q
    requires ReadMove(cols, x, p) == NoColError && UpdateError(cols, p, q) == NoColError
    ensures Finds(cols, DoMove(x, p, p)) && Finds(cols, DoMove(p, q, q))
  {
    hide NameTaken;
  }

  // Such a state is reached from the empty server by three creates.
  lemma StaleRootIsReachable(maxBlob: int, u: Id, x: Id, p: Id, q: Id) returns (run: seq<Step>)
    requires x != p && p != q && q != x && "" !in {x, p, q}
    ensures PossibleRun(Srv(Empty(maxBlob), {}), run) && !ForestInv(RunAll(Srv(Empty(maxBlob), {}), run).t.collections)
  {
    hide Inv, ForestInv, LinksInv, PossibleRun, RunAll, SrvInv, After, Possible, Empty;
    var s0 := Srv(Empty(maxBlob), {});
    var r1, s1 := RootsAreCreated(maxBlob, u, [x, p, q]);
    assert IdSet([x, p, q]) == {x, p, q};
    ThreeRootsRace(s1, u, x, p, q);
    StaleRootRun(s1, x, p, q);
    var r2 := [Looks(DoMove(x, p, p)), Looks(DoMove(p, q, q)), Writes(DoMove(p, q, q)), Writes(DoMove(x, p, p))];
    RunsJoin(s0, r1, r2);
    run := r1 + r2;
  }

  // Roots created one after the other, each named as its id.
  function Roots(u: Id, ids: set<Id>): Collections { map c | c in ids :: RootRow(c, u, c) }

  function IdSet(ids: seq<Id>): set<Id> { set c | c in ids }

  lemma {:induction false} RootsAreCreated(maxBlob: int, u: Id, ids: seq<Id>) returns (run: seq<Step>, s: Srv)
    requires "" !in ids && forall i, j :: 0 <= i < j < |ids| ==> ids[i] != ids[j]
    ensures var s0 := Srv(Empty(maxBlob), {}); PossibleRun(s0, run) && s == RunAll(s0, run)
    ensures SrvInv(s) && ForestInv(s.t.collections) && s.t == Empty(maxBlob).(collections := Roots(u, IdSet(ids)))
    decreases |ids|
  {
    hide RootRow;
    var s0 := Srv(Empty(maxBlob), {});
    if ids == [] {
      EmptyIsInv(maxBlob);
      run, s := [], s0;
    } else {
      hide SrvInv, ForestInv, PossibleRun, RunAll, Empty, Roots;
      run, s := RootsAreCreated(maxBlob, u, ids[..|ids| - 1]);
      RootsGrow(u, ids);
      run, s := AddRoot(s0, run, s, ids[|ids| - 1], u, ids[|ids| - 1]);
    }
  }

  lemma RootsGrow(u: Id, ids: seq<Id>)
    requires ids != [] && ids[|ids| - 1] !in ids[..|ids| - 1]
    ensures var front, id := ids[..|ids| - 1], ids[|ids| - 1];
      && id !in Roots(u, IdSet(front))
      && (forall c :: c in Roots(u, IdSet(front)) ==> Roots(u, IdSet(front))[c].name != id)
      && Roots(u, IdSet(ids)) == Roots(u, IdSet(front))[id := RootRow(id, u, id)]
  {
    assert IdSet(ids) == IdSet(ids[..|ids| - 1]) + {ids[|ids| - 1]};
  }

  lemma AddRoot(s0: Srv, run0: seq<Step>, s: Srv, id: Id, owner: Id, name: string) returns (run: seq<Step>, s': Srv)
    requires PossibleRun(s0, run0) && s == RunAll(s0, run0)
    requires SrvInv(s) && ForestInv(s.t.collections) && id != "" && id !in s.t.collections && name != ""
    requires forall c :: c in s.t.collections ==> s.t.collections[c].name != name
    ensures PossibleRun(s0, run) && s' == RunAll(s0, run) && SrvInv(s') && ForestInv(s'.t.collections)
    ensures s'.t == s.t.(collections := s.t.collections[id := RootRow(id, owner, name)])
  {
    hide ForestInv, PossibleRun, RunAll, SrvInv, NewRoot;
    s' := RootIsCreated(s, id, owner, name);
    var more := [Looks(NewRoot(id, owner, name)), Writes(NewRoot(id, owner, name))];
    RunsJoin(s0, run0, more);
    run := run0 + more;
  }

  const FILES := "files"

  function RootRow(id: Id, owner: Id, name: string): Collection { Collection(FILES, name, "", owner, id, false, 1, false, "") }

  function NewRoot(id: Id, owner: Id, name: string): Action { DoCreate(id, owner, FILES, name, "", id) }

  lemma RootIsCreated(s: Srv, id: Id, owner: Id, name: string) returns (s': Srv)
    requires SrvInv(s) && ForestInv(s.t.collections) && id != "" && id !in s.t.collections && name != ""
    requires forall c :: c in s.t.collections ==> s.t.collections[c].name != name
    ensures var run := [Looks(NewRoot(id, owner, name)), Writes(NewRoot(id, owner, name))];
      PossibleRun(s, run) && s' == RunAll(s, run)
    ensures SrvInv(s') && ForestInv(s'.t.collections)
    ensures s'.t == s.t.(collections := s.t.collections[id := RootRow(id, owner, name)])
  {
    hide ForestInv, Inv, SrvInv;
    var a := NewRoot(id, owner, name);
    assert Finds(s.t.collections, a) && Environment(s.t, a);
    InsertKeepsForestExactly(s.t.collections, id, owner, FILES, name, "", id);
    RunOfOneMore(s, [], Looks(a));
    RunOfOneMore(s, [Looks(a)], Writes(a));
    assert [] + [Looks(a)] == [Looks(a)] && [Looks(a)] + [Writes(a)] == [Looks(a), Writes(a)];
    s' := RunAll(s, [Looks(a), Writes(a)]);
    RunsKeepInv(s, [Looks(a), Writes(a)]);
  }

  lemma ThreeRootsRace(s: Srv, u: Id, x: Id, p: Id, q: Id)
    requires x != p && p != q && q != x && ForestInv(s.t.collections)
    requires s.t.collections == Roots(u, {x, p, q})
    ensures var cols := s.t.collections;
      && ReadMove(cols, x, p) == NoColError && UpdateError(cols, p, q) == NoColError
      && var once := CommitMove(cols, p, q, q); once.Committed? ==> UpdateError(once.cols, x, p) == NoColError
  {
    hide CommitMove;
    var cols := s.t.collections;
    if CommitMove(cols, p, q, q).Committed? { MoveFrame(cols, p, q, q); }
  }

  lemma {:induction false} RunsJoin(s: Srv, r1: seq<Step>, r2: seq<Step>)
    ensures RunAll(s, r1 + r2) == RunAll(RunAll(s, r1), r2)
    ensures PossibleRun(s, r1 + r2) <==> PossibleRun(s, r1) && PossibleRun(RunAll(s, r1), r2)
    decreases |r2|
  {
    hide After, Possible;
    if r2 == [] {
      assert r1 + r2 == r1;
    } else {
      assert (r1 + r2)[..|r1 + r2| - 1] == r1 + r2[..|r2| - 1];
      RunsJoin(s, r1, r2[..|r2| - 1]);
    }
  }

  lemma TwoMoves(s: Srv, m1: Action, m2: Action)
    requires m1.DoMove? && m2.DoMove? && Finds(s.t.collections, m1) && Finds(s.t.collections, m2)
    ensures var s2 := After(After(s, Looks(m1)), Looks(m2));
      var s3 := After(s2, Writes(m2));
      && Possible(s, Looks(m1)) && Possible(After(s, Looks(m1)), Looks(m2)) && Possible(s2, Writes(m2)) && Possible(s3, Writes(m1))
      && s3.t.collections == AfterMove(s.t.collections, m2.id, m2.parent, m2.root)
      && After(s3, Writes(m1)).t.collections == AfterMove(s3.t.collections, m1.id, m1.parent, m1.root)
  {
    hide Finds, AfterMove, Push, Commit, Upload, Ack, Collect, Repair, Tombstone, InsertError, Rename, Mirror;
  }

  lemma RunOfFour(s: Srv, a: Step, b: Step, c: Step, d: Step)
    ensures var (s1, run) := (After(s, a), [a, b, c, d]);
      var s2 := After(s1, b);
      var s3 := After(s2, c);
      && RunAll(s, run) == After(s3, d)
      && (PossibleRun(s, run) <==> Possible(s, a) && Possible(s1, b) && Possible(s2, c) && Possible(s3, d))
  {
    hide After, Possible;
    RunOfOneMore(s, [], a);
    RunOfOneMore(s, [a], b);
    RunOfOneMore(s, [a, b], c);
    RunOfOneMore(s, [a, b, c], d);
    assert [] + [a] == [a] && [a] + [b] == [a, b] && [a, b] + [c] == [a, b, c] && [a, b, c] + [d] == [a, b, c, d];
  }

  lemma RunOfOneMore(s: Srv, run: seq<Step>, e: Step)
    ensures RunAll(s, run + [e]) == After(RunAll(s, run), e)
    ensures PossibleRun(s, run + [e]) <==> PossibleRun(s, run) && Possible(RunAll(s, run), e)
  {
    assert (run + [e])[..|run + [e]| - 1] == run;
  }

  // ---- tombstones along a run --------------------------------------------------------

  // No write brings a tombstone back or changes it; only Collect removes it.
  lemma NextKeepsTombstone(t: Tables, a: Action, o: Id)
    requires o in t.objects && t.objects[o].deleted
    ensures var t' := Next(t, a);
      && (o in t'.objects ==> t'.objects[o] == t.objects[o])
      && (o !in t'.objects ==> a == DoCollect)
  {
    hide Commit, InsertError, Rename, Mirror, AfterMove, Compactable, Recount, Without;
    if a.DoPush? {
      CommitKeepsTombstone(t, a.dev, ScopedKey(a.dev, a.k), a.items, o);
    } else if a.DoLateCommit? {
      CommitKeepsTombstone(t, a.dev, ScopedKey(a.dev, a.k), a.items, o);
    }
  }

  lemma CommitKeepsTombstone(t: Tables, dev: Caller, key: string, items: seq<Input>, o: Id)
    requires o in t.objects && t.objects[o].deleted
    ensures var t' := Commit(t, dev, key, items).0; o in t'.objects && t'.objects[o] == t.objects[o]
  {
    hide ApplyAll;
    TombstoneSurvivesBatch(t, dev, key, items, o);
  }

  // A tombstone stays as it is until it is compacted, in every run.
  lemma {:induction false} TombstoneUntilCompacted(s: Srv, run: seq<Step>, o: Id)
    requires o in s.t.objects && s.t.objects[o].deleted
    requires forall n: nat :: n <= |run| ==> o in RunAll(s, run[..n]).t.objects
    ensures o in RunAll(s, run).t.objects && RunAll(s, run).t.objects[o] == s.t.objects[o]
    decreases |run|
  {
    hide Next;
    if run != [] {
      var front, e := run[..|run| - 1], run[|run| - 1];
      forall n: nat | n <= |front| ensures o in RunAll(s, front[..n]).t.objects { assert front[..n] == run[..n]; }
      TombstoneUntilCompacted(s, front, o);
      assert run[..|run|] == run;
      if e.Writes? { NextKeepsTombstone(RunAll(s, front).t, e.a, o); }
    }
  }
}
