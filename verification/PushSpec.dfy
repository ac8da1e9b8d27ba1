// What one pushed item does to the tables: a decision (reject, conflict, or
// write one row) and the write itself.

module PushSpec {
  import opened Wrappers
  import opened Model
  import opened Access
  import opened Sums

  const MAX_METADATA_BYTES := 262144

  function MetaOf(inp: Input): Meta {
    match inp.metadata case None => EmptyMeta() case Some(m) => m
  }

  function Rejected(inp: Input, msg: PushError): PushResult { PushResult(inp.oid, Error, 0, 0, 0, "", msg) }

  function Conflicted(inp: Input, obj: Object): PushResult { PushResult(inp.oid, Conflict, 0, 0, obj.rev, obj.hash, NoError) }

  function CollectionOwner(t: Tables, col: Id): Id {
    if col in t.collections then t.collections[col].owner else ""
  }

  // ---- blob references -------------------------------------------------

  function AddRef(refs: set<(Id, Hash)>, user: Id, h: Hash): set<(Id, Hash)> {
    if user == "" || h == "" then refs else refs + {(user, h)}
  }

  // ensureBlob's verdict: NoError lets the blob be attached.
  function BlobError(t: Tables, refs: set<(Id, Hash)>, dev: Caller, h: Hash, contentHash: Hash): PushError {
    if h !in t.blobs || h !in t.files then BlobMissing
    else if contentHash != "" && contentHash != h then ContentHashMismatch
    else if !dev.System() && (dev.user, h) !in refs then BlobMissing
    else NoError
  }

  // ensureExtraBlobs: stops at the first blob that may not be attached, and
  // keeps the references the owner gained before it.
  function EnsureAll(t: Tables, refs: set<(Id, Hash)>, dev: Caller, owner: Id, hs: seq<Hash>): (r: (set<(Id, Hash)>, PushError))
    ensures refs <= r.0
    ensures r.1 == NoError ==> forall h :: h in hs ==> h in t.blobs && h in t.files
    decreases |hs|
  {
    if hs == [] then (refs, NoError)
    else
      var e := BlobError(t, refs, dev, hs[0], "");
      if e != NoError then (refs, e) else EnsureAll(t, AddRef(refs, owner, hs[0]), dev, owner, hs[1..])
  }

  function NewOnly(hs: seq<Hash>, prev: set<Hash>): (r: seq<Hash>)
    ensures forall h :: h in r <==> h in hs && h !in prev
  {
    if hs == [] then []
    else
      var r := NewOnly(hs[..|hs| - 1], prev);
      assert hs == hs[..|hs| - 1] + [hs[|hs| - 1]];
      if hs[|hs| - 1] in prev then r else r + [hs[|hs| - 1]]
  }

  function AllBlobs(m: Meta): seq<Hash> { Distinct(m.named) }

  // newExtraBlobs.
  function NewBlobs(prev: Meta, m: Meta): seq<Hash> { NewOnly(Distinct(m.named), Extra(prev)) }

  // ---- quota ------------------------------------------------------------

  function BlobSize(blobs: map<Hash, Blob>, h: Hash): int {
    if h != "" && h in blobs then blobs[h].size else 0
  }

  ghost function ExtraCost(blobs: map<Hash, Blob>, hs: set<Hash>): int {
    Sum(map h | h in hs :: BlobSize(blobs, h))
  }

  // What a row costs its owner: bytes, metadata, and every extra blob once.
  ghost function Cost(blobs: map<Hash, Blob>, size: int, blob: Hash, meta: Meta): int {
    size + meta.size + ExtraCost(blobs, Extra(meta) - {blob})
  }

  function ChargeError(t: Tables, inp: Input): PushError {
    if MetaOf(inp).size > MAX_METADATA_BYTES then MetadataTooLarge
    else if inp.blob == "" && (inp.size < 0 || inp.size > t.maxBlob) then InvalidSize
    else NoError
  }

  function StoredSize(t: Tables, inp: Input): int {
    if inp.blob != "" then BlobSize(t.blobs, inp.blob) else inp.size
  }

  predicate CountsFor(collections: map<Id, Collection>, owner: Id, o: Object) {
    !o.deleted && o.col in collections && collections[o.col].owner == owner && !collections[o.col].deleted
  }

  ghost function Charges(t: Tables, owner: Id): map<Id, int> {
    map o | o in t.objects :: if CountsFor(t.collections, owner, t.objects[o]) then t.objects[o].charged else 0
  }

  ghost function Usage(t: Tables, owner: Id): int { Sum(Charges(t, owner)) }

  ghost predicate QuotaAllows(t: Tables, owner: Id, delta: int) {
    owner == "" || delta <= 0 || owner !in t.users || t.users[owner].quota <= 0 ||
    (Usage(t, owner) <= t.users[owner].quota && delta <= t.users[owner].quota - Usage(t, owner))
  }

  // ---- the decision -----------------------------------------------------

  datatype RowWrite = RowWrite(row: Object, col: Id, op: Op)
  datatype Decision = Decision(refs: set<(Id, Hash)>, result: PushResult, write: Option<RowWrite>)

  function Refuse(refs: set<(Id, Hash)>, r: PushResult): Decision { Decision(refs, r, None) }

  // The checks before the operation itself; NoError lets the item through.
  function GateError(t: Tables, dev: Caller, inp: Input): (e: PushError)
    ensures e == NoError ==> inp.col in t.collections && inp.op != OtherOp
  {
    if !ValidId(inp.oid) || !ValidId(inp.col) then InvalidId
    else if inp.op == OtherOp then InvalidOp
    else if inp.op != Delete && inp.metaHash != "" && inp.metaHash != MetaOf(inp).hash then MetadataHashMismatch
    else if inp.col !in t.collections then CollectionNotFound
    else if t.collections[inp.col].deleted then CollectionDeleted
    else if Rank(AccessFor(t, dev, inp.col)) < Rank(Write) then Unauthorized
    else if MirrorReadOnly(t, dev, inp.col) then MirrorReadOnlyError
    else if inp.oid in t.objects && inp.op != Create && t.objects[inp.oid].col != inp.col then
      var src := t.objects[inp.oid].col;
      if Rank(AccessFor(t, dev, src)) < Rank(Write) || CollectionOwner(t, src) != t.collections[inp.col].owner then Unauthorized
      else if MirrorReadOnly(t, dev, src) then MirrorReadOnlyError
      else NoError
    else NoError
  }

  function DoneAs(t: Tables, inp: Input, rev: nat): PushResult { PushResult(inp.oid, Ok, rev, t.lastSeq + 1, 0, "", NoError) }

  // The main blob of a created object.
  function AttachNew(t: Tables, dev: Caller, owner: Id, inp: Input): (set<(Id, Hash)>, PushError) {
    if inp.blob == "" then (t.blobRefs, NoError)
    else
      var e := BlobError(t, t.blobRefs, dev, inp.blob, inp.hash);
      if e != NoError then (t.blobRefs, e) else (AddRef(t.blobRefs, owner, inp.blob), NoError)
  }

  // The main blob of an updated object: one it already has needs no fresh proof.
  function AttachChanged(t: Tables, dev: Caller, owner: Id, inp: Input, obj: Object): (set<(Id, Hash)>, PushError) {
    if inp.blob != "" && inp.blob != obj.blob then AttachNew(t, dev, owner, inp)
    else if inp.blob != "" && inp.hash != "" && inp.hash != inp.blob then (t.blobRefs, ContentHashMismatch)
    else (t.blobRefs, NoError)
  }

  // The checks of a create: the references gained, and the first error.
  ghost function CheckCreate(t: Tables, dev: Caller, inp: Input): (set<(Id, Hash)>, PushError)
    requires inp.col in t.collections
  {
    var (refs0, e0) := AttachNew(t, dev, t.collections[inp.col].owner, inp);
    if e0 != NoError then (refs0, e0) else CheckRest(t, refs0, dev, inp, AllBlobs(MetaOf(inp)), 0)
  }

  // The checks creates and updates share: metadata blobs, size, quota.
  ghost function CheckRest(t: Tables, refs0: set<(Id, Hash)>, dev: Caller, inp: Input, hs: seq<Hash>, oldCharge: int): (set<(Id, Hash)>, PushError)
    requires inp.col in t.collections
  {
    var owner := t.collections[inp.col].owner;
    var (refs, e1) := EnsureAll(t, refs0, dev, owner, hs);
    if e1 != NoError then (refs, e1)
    else if ChargeError(t, inp) != NoError then (refs, ChargeError(t, inp))
    else if !QuotaAllows(t, owner, NewCharge(t, inp) - oldCharge) then (refs, QuotaExceeded)
    else (refs, NoError)
  }

  ghost function NewCharge(t: Tables, inp: Input): int { Cost(t.blobs, StoredSize(t, inp), inp.blob, MetaOf(inp)) }

  // The row a create inserts.
  function NewRow(dev: Caller, inp: Input, size: int, charged: int): Object {
    Object(inp.col, if inp.kind == "" then "file" else inp.kind, 1,
           if inp.blob == "" && inp.hash == "" then SHA_OF_NOTHING else inp.hash,
           MetaOf(inp).hash, inp.blob, size, charged, dev.id, MetaOf(inp), false)
  }

  ghost function CreatedRow(t: Tables, dev: Caller, inp: Input): Object {
    NewRow(dev, inp, StoredSize(t, inp), NewCharge(t, inp))
  }

  ghost function DecideCreate(t: Tables, dev: Caller, inp: Input): Decision
    requires inp.col in t.collections
  {
    if inp.oid in t.objects then
      // Revision and hash are not revealed to callers who cannot read the object.
      if Rank(AccessFor(t, dev, t.objects[inp.oid].col)) < Rank(Read)
      then Refuse(t.blobRefs, Rejected(inp, ObjectIdInUse))
      else Refuse(t.blobRefs, Conflicted(inp, t.objects[inp.oid]))
    else
      var (refs, e) := CheckCreate(t, dev, inp);
      if e != NoError then Refuse(refs, Rejected(inp, e))
      else Decision(refs, DoneAs(t, inp, 1), Some(RowWrite(CreatedRow(t, dev, inp), inp.col, Create)))
  }

  // The checks of an update; metadata blobs it already named need no proof either.
  ghost function CheckUpdate(t: Tables, dev: Caller, inp: Input, obj: Object): (set<(Id, Hash)>, PushError)
    requires inp.col in t.collections
  {
    var (refs0, e0) := AttachChanged(t, dev, t.collections[inp.col].owner, inp, obj);
    if e0 != NoError then (refs0, e0) else CheckRest(t, refs0, dev, inp, NewBlobs(obj.meta, MetaOf(inp)), obj.charged)
  }

  ghost function UpdatedRow(t: Tables, dev: Caller, inp: Input, obj: Object): Object {
    Object(inp.col, obj.kind, obj.rev + 1, inp.hash, MetaOf(inp).hash, inp.blob,
           StoredSize(t, inp), NewCharge(t, inp), dev.id, MetaOf(inp), false)
  }

  ghost function DecideUpdate(t: Tables, dev: Caller, inp: Input): Decision
    requires inp.col in t.collections
  {
    if inp.oid !in t.objects then Refuse(t.blobRefs, Rejected(inp, NotFound))
    else
      var obj := t.objects[inp.oid];
      if obj.deleted || (obj.rev != inp.base && !inp.force) then Refuse(t.blobRefs, Conflicted(inp, obj))
      else
        var (refs, e) := CheckUpdate(t, dev, inp, obj);
        if e != NoError then Refuse(refs, Rejected(inp, e))
        else Decision(refs, DoneAs(t, inp, obj.rev + 1), Some(RowWrite(UpdatedRow(t, dev, inp, obj), inp.col, Update)))
  }

  function DecideDelete(t: Tables, dev: Caller, inp: Input): Decision {
    if inp.oid !in t.objects then Refuse(t.blobRefs, Rejected(inp, NotFound))
    else
      var obj := t.objects[inp.oid];
      if obj.deleted then Refuse(t.blobRefs, PushResult(inp.oid, Ok, obj.rev, 0, 0, "", NoError))
      else if obj.rev != inp.base && !inp.force then Refuse(t.blobRefs, Conflicted(inp, obj))
      else
        // The tombstone keeps its own collection; only the journal entry
        // carries the collection named in the request.
        var row := obj.(rev := obj.rev + 1, deleted := true, origin := dev.id);
        Decision(t.blobRefs, DoneAs(t, inp, obj.rev + 1), Some(RowWrite(row, inp.col, Delete)))
  }

  ghost function Decide(t: Tables, dev: Caller, inp: Input): Decision {
    var e := GateError(t, dev, inp);
    if e != NoError then Refuse(t.blobRefs, Rejected(inp, e))
    else match inp.op
      case Create => DecideCreate(t, dev, inp)
      case Update => DecideUpdate(t, dev, inp)
      case Delete => DecideDelete(t, dev, inp)
      case OtherOp => Refuse(t.blobRefs, Rejected(inp, InvalidOp))
  }

  // ---- the write ---------------------------------------------------------

  function Inc(blobs: map<Hash, Blob>, h: Hash): map<Hash, Blob> {
    if h != "" && h in blobs then blobs[h := Blob(blobs[h].size, blobs[h].refcount + 1)] else blobs
  }

  // MAX(refcount - 1, 0).
  function Dec(blobs: map<Hash, Blob>, h: Hash): map<Hash, Blob> {
    if h != "" && h in blobs then blobs[h := DecBlob(blobs[h])] else blobs
  }

  function DecBlob(b: Blob): Blob { Blob(b.size, if b.refcount >= 1 then b.refcount - 1 else 0) }

  // adjustExtraBlobRefs.
  function AdjustExtra(blobs: map<Hash, Blob>, prev: set<Hash>, neu: set<Hash>): map<Hash, Blob> {
    map h | h in blobs ::
      if h in prev && h !in neu then DecBlob(blobs[h])
      else if h in neu && h !in prev then Blob(blobs[h].size, blobs[h].refcount + 1)
      else blobs[h]
  }

  function LiveBlob(o: Option<Object>): Hash {
    if o.None? || o.value.deleted then "" else o.value.blob
  }

  function LiveExtra(o: Option<Object>): set<Hash> {
    if o.None? || o.value.deleted then {} else Extra(o.value.meta)
  }

  function Row(t: Tables, oid: Id): Option<Object> {
    if oid in t.objects then Some(t.objects[oid]) else None
  }

  function MoveRefs(blobs: map<Hash, Blob>, before: Option<Object>, after: Option<Object>): map<Hash, Blob> {
    var b := if LiveBlob(before) == LiveBlob(after) then blobs
             else Inc(Dec(blobs, LiveBlob(before)), LiveBlob(after));
    AdjustExtra(b, LiveExtra(before), LiveExtra(after))
  }

  // One effective write: the row, the blob counts, and one journal entry.
  function Put(t: Tables, oid: Id, w: RowWrite, dev: Id, key: string): Tables {
    t.(objects := t.objects[oid := w.row],
       blobs := MoveRefs(t.blobs, Row(t, oid), Some(w.row)),
       journal := t.journal + [Entry(t.lastSeq + 1, oid, w.col, w.op, w.row.rev, w.row.hash, w.row.metaHash, dev, key)],
       lastSeq := t.lastSeq + 1)
  }

  function Perform(t: Tables, dev: Id, key: string, oid: Id, d: Decision): Tables {
    var t1 := t.(blobRefs := d.refs);
    if d.write.None? then t1 else Put(t1, oid, d.write.value, dev, key)
  }

  ghost function ApplyOne(t: Tables, dev: Caller, key: string, inp: Input): (Tables, PushResult) {
    var d := Decide(t, dev, inp);
    (Perform(t, dev.id, key, inp.oid, d), d.result)
  }

  // The items of a batch, in order, each seeing what the earlier ones did.
  ghost function ApplyAll(t: Tables, dev: Caller, key: string, items: seq<Input>): (r: (Tables, seq<PushResult>))
    ensures |r.1| == |items|
    decreases |items|
  {
    if items == [] then (t, [])
    else
      var (t1, rs) := ApplyAll(t, dev, key, items[..|items| - 1]);
      var (t2, r) := ApplyOne(t1, dev, key, items[|items| - 1]);
      (t2, rs + [r])
  }
}
