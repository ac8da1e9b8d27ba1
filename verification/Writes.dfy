// What every effective write satisfies, whichever operation produced it.

module Writes {
  import opened Wrappers
  import opened Model
  import opened Access
  import opened PushSpec

  // The new row follows the old one by exactly one revision and never revives
  // a tombstone; it names only attachable blobs, costs what it stores, and
  // stays with its owner, inside the owner's quota.
  ghost predicate ValidWrite(t: Tables, oid: Id, w: RowWrite) {
    && ValidId(oid)
    && w.op != OtherOp
    && (w.op == Create <==> oid !in t.objects)
    && (w.op == Delete <==> w.row.deleted)
    && w.col in t.collections && !t.collections[w.col].deleted
    && (oid !in t.objects ==> w.row.rev == 1)
    && (oid in t.objects ==>
          var obj := t.objects[oid];
          && !obj.deleted
          && w.row.rev == obj.rev + 1
          && (obj.col != w.col ==> CollectionOwner(t, obj.col) == t.collections[w.col].owner)
          && (w.row.deleted ==> w.row == obj.(rev := obj.rev + 1, deleted := true, origin := w.row.origin)))
    && (!w.row.deleted ==>
          && w.row.col == w.col && w.row.size >= 0
          && (w.row.blob == "" || w.row.blob in t.blobs || w.row.blob == LiveBlob(Row(t, oid)))
          && Extra(w.row.meta) - LiveExtra(Row(t, oid)) <= t.blobs.Keys
          && w.row.charged == Cost(t.blobs, w.row.size, w.row.blob, w.row.meta)
          && (w.row.blob != "" ==> w.row.size == BlobSize(t.blobs, w.row.blob))
          && QuotaAllows(t, t.collections[w.col].owner, w.row.charged - OldCharge(t, oid)))
  }

  function OldCharge(t: Tables, oid: Id): int {
    if oid in t.objects then t.objects[oid].charged else 0
  }

  // The facts a decision gives, in one name.
  ghost predicate ValidDecision(t: Tables, dev: Caller, inp: Input, d: Decision) {
    && t.blobRefs <= d.refs
    && d.result.oid == inp.oid
    && (d.write.None? ==> d.result.seqNo == 0)
    && (d.write.Some? ==>
          && ValidWrite(t, inp.oid, d.write.value)
          && d.write.value.col == inp.col && d.write.value.op == inp.op && d.write.value.row.origin == dev.id
          && d.result.status == Ok && d.result.rev == d.write.value.row.rev && d.result.seqNo == t.lastSeq + 1)
  }

  // What the checks before the operation establish.
  lemma GatePasses(t: Tables, dev: Caller, inp: Input)
    requires GateError(t, dev, inp) == NoError
    ensures ValidId(inp.oid) && inp.col in t.collections && !t.collections[inp.col].deleted
    ensures Rank(AccessFor(t, dev, inp.col)) >= Rank(Write) && !MirrorReadOnly(t, dev, inp.col)
    ensures inp.oid in t.objects && inp.op != Create && t.objects[inp.oid].col != inp.col ==>
      && CollectionOwner(t, t.objects[inp.oid].col) == t.collections[inp.col].owner
      && Rank(AccessFor(t, dev, t.objects[inp.oid].col)) >= Rank(Write)
      && !MirrorReadOnly(t, dev, t.objects[inp.oid].col)
  {
    hide AccessFor, MirrorReadOnly, MetaOf, CollectionOwner;
  }

  // What passing the shared checks establishes.
  lemma RestPasses(t: Tables, refs0: set<(Id, Hash)>, dev: Caller, inp: Input, prev: set<Hash>, hs: seq<Hash>, oldCharge: int)
    requires inp.col in t.collections && forall h :: h in hs <==> h in Distinct(MetaOf(inp).named) && h !in prev
    ensures var (refs, e) := CheckRest(t, refs0, dev, inp, hs, oldCharge);
      && refs0 <= refs
      && (e == NoError ==>
            && Extra(MetaOf(inp)) - prev <= t.blobs.Keys && StoredSize(t, inp) >= 0
            && QuotaAllows(t, t.collections[inp.col].owner, NewCharge(t, inp) - oldCharge))
  {
    hide EnsureAll, ChargeError, QuotaAllows, NewCharge, Extra, Distinct, MetaOf, StoredSize;
    ExtraInBlobs(t, MetaOf(inp), prev, hs);
    SizeIsStored(t, inp);
  }

  // What a checked create writes.
  lemma CheckedCreate(t: Tables, dev: Caller, inp: Input)
    requires inp.col in t.collections
    ensures var (refs, e) := CheckCreate(t, dev, inp); var row := CreatedRow(t, dev, inp);
      && t.blobRefs <= refs
      && row.rev == 1 && row.col == inp.col && !row.deleted && row.origin == dev.id
      && row.charged == Cost(t.blobs, row.size, row.blob, row.meta)
      && (row.blob != "" ==> row.size == BlobSize(t.blobs, row.blob))
      && (e == NoError ==>
            && (row.blob == "" || row.blob in t.blobs) && Extra(row.meta) <= t.blobs.Keys && row.size >= 0
            && QuotaAllows(t, t.collections[inp.col].owner, row.charged))
  {
    var (refs0, e0) := AttachNew(t, dev, t.collections[inp.col].owner, inp);
    Attached(t, dev, t.collections[inp.col].owner, inp);
    RestPasses(t, refs0, dev, inp, {}, AllBlobs(MetaOf(inp)), 0);
    SizeIsStored(t, inp);
    hide MetaOf, QuotaAllows, CheckRest, AttachNew, AllBlobs, Extra, Cost, StoredSize, BlobSize;
  }

  lemma Attached(t: Tables, dev: Caller, owner: Id, inp: Input)
    ensures var (refs, e) := AttachNew(t, dev, owner, inp);
      t.blobRefs <= refs && (e == NoError ==> inp.blob == "" || inp.blob in t.blobs)
  {}

  lemma CreateIsValid(t: Tables, dev: Caller, inp: Input)
    requires inp.op == Create && ValidId(inp.oid) && inp.col in t.collections && !t.collections[inp.col].deleted
    ensures ValidDecision(t, dev, inp, DecideCreate(t, dev, inp))
  {
    hide AccessFor, QuotaAllows, ValidId, CheckCreate, CreatedRow, Extra, Cost, BlobSize;
    CheckedCreate(t, dev, inp);
  }

  // Checking the newly named blobs covers all of the metadata.
  lemma ExtraInBlobs(t: Tables, m: Meta, prev: set<Hash>, checked: seq<Hash>)
    requires forall h :: h in checked <==> h in Distinct(m.named) && h !in prev
    ensures (forall h :: h in checked ==> h in t.blobs && h in t.files) ==> Extra(m) - prev <= t.blobs.Keys
  {
    if forall h :: h in checked ==> h in t.blobs && h in t.files {
      forall h | h in Extra(m) - prev ensures h in t.blobs { assert h in checked; }
    }
  }

  lemma SizeIsStored(t: Tables, inp: Input)
    ensures ChargeError(t, inp) == NoError ==> StoredSize(t, inp) >= 0
    ensures inp.blob != "" ==> StoredSize(t, inp) == BlobSize(t.blobs, inp.blob)
  {}

  // What a checked update writes.
  lemma CheckedUpdate(t: Tables, dev: Caller, inp: Input, obj: Object)
    requires inp.col in t.collections
    ensures var (refs, e) := CheckUpdate(t, dev, inp, obj); var row := UpdatedRow(t, dev, inp, obj);
      && t.blobRefs <= refs
      && row.rev == obj.rev + 1 && row.col == inp.col && !row.deleted && row.origin == dev.id
      && row.charged == Cost(t.blobs, row.size, row.blob, row.meta)
      && (row.blob != "" ==> row.size == BlobSize(t.blobs, row.blob))
      && (e == NoError ==>
            && (row.blob == "" || row.blob in t.blobs || row.blob == obj.blob)
            && Extra(row.meta) - Extra(obj.meta) <= t.blobs.Keys && row.size >= 0
            && QuotaAllows(t, t.collections[inp.col].owner, row.charged - obj.charged))
  {
    hide MetaOf, QuotaAllows, CheckRest, AttachNew, Extra, Cost;
    var (refs0, e0) := AttachChanged(t, dev, t.collections[inp.col].owner, inp, obj);
    Attached(t, dev, t.collections[inp.col].owner, inp);
    RestPasses(t, refs0, dev, inp, Extra(obj.meta), NewBlobs(obj.meta, MetaOf(inp)), obj.charged);
    SizeIsStored(t, inp);
    hide NewBlobs, StoredSize, BlobSize;
  }

  lemma UpdateIsValid(t: Tables, dev: Caller, inp: Input)
    requires ValidId(inp.oid) && inp.op == Update && inp.col in t.collections && !t.collections[inp.col].deleted
    requires inp.oid in t.objects && t.objects[inp.oid].col != inp.col ==>
      CollectionOwner(t, t.objects[inp.oid].col) == t.collections[inp.col].owner
    ensures ValidDecision(t, dev, inp, DecideUpdate(t, dev, inp))
  {
    hide QuotaAllows, ValidId, CheckUpdate, UpdatedRow, Extra, Cost, BlobSize, CollectionOwner;
    if inp.oid in t.objects { CheckedUpdate(t, dev, inp, t.objects[inp.oid]); }
  }

  lemma DeleteIsValid(t: Tables, dev: Caller, inp: Input)
    requires GateError(t, dev, inp) == NoError && inp.op == Delete
    ensures ValidDecision(t, dev, inp, DecideDelete(t, dev, inp))
  {
    hide AccessFor, MirrorReadOnly, ValidId, GateError, CollectionOwner;
    GatePasses(t, dev, inp);
  }

  lemma DecisionsAreValid(t: Tables, dev: Caller, inp: Input)
    ensures ValidDecision(t, dev, inp, Decide(t, dev, inp))
  {
    if GateError(t, dev, inp) == NoError {
      match inp.op
      case Create => GatePasses(t, dev, inp); CreateIsValid(t, dev, inp);
      case Update => GatePasses(t, dev, inp); UpdateIsValid(t, dev, inp);
      case Delete => DeleteIsValid(t, dev, inp);
    }
  }

  // Blob references gained on the way do not change what a write must satisfy.
  lemma SameWrite(t: Tables, t1: Tables, oid: Id, w: RowWrite)
    requires t1 == t.(blobRefs := t1.blobRefs) && ValidWrite(t, oid, w)
    ensures ValidWrite(t1, oid, w)
  {
    hide ValidId, Extra, Cost;
    forall u ensures Usage(t1, u) == Usage(t, u) { assert Charges(t1, u) == Charges(t, u); }
  }
}
