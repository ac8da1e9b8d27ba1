// When a pushed item is accepted, when it conflicts, and what its answer
// gives away: the rules, stated without the order in which they are checked.

module Outcomes {
  import opened Wrappers
  import opened Model
  import opened Access
  import opened PushSpec
  import opened Writes
  import opened Chain
  import opened Changes

  predicate MayWrite(t: Tables, dev: Caller, col: Id) {
    Rank(AccessFor(t, dev, col)) >= Rank(Write) && !MirrorReadOnly(t, dev, col)
  }

  // The caller may write where the item goes and where its object comes from.
  predicate MayPlace(t: Tables, dev: Caller, inp: Input) {
    && inp.col in t.collections && !t.collections[inp.col].deleted && MayWrite(t, dev, inp.col)
    && (inp.oid in t.objects && inp.op != Create && t.objects[inp.oid].col != inp.col ==>
          MayWrite(t, dev, t.objects[inp.oid].col) && CollectionOwner(t, t.objects[inp.oid].col) == t.collections[inp.col].owner)
  }

  predicate WellFormed(inp: Input) {
    && ValidId(inp.oid) && ValidId(inp.col) && inp.op != OtherOp
    && (inp.op != Delete && inp.metaHash != "" ==> inp.metaHash == MetaOf(inp).hash)
  }

  // A blob is stored, on disk, and the caller has shown that they hold it.
  predicate Attachable(t: Tables, dev: Caller, h: Hash) {
    h in t.blobs && h in t.files && (dev.System() || (dev.user, h) in t.blobRefs)
  }

  // The content named by an item: its blob, and the blobs its metadata names,
  // but for those the object already has.
  predicate ContentOk(t: Tables, dev: Caller, inp: Input, had: Option<Object>) {
    && (inp.blob != "" ==>
          && (inp.hash == "" || inp.hash == inp.blob)
          && ((had.Some? && had.value.blob == inp.blob) || Attachable(t, dev, inp.blob)))
    && forall h :: h in Extra(MetaOf(inp)) && !(had.Some? && h in Extra(had.value.meta)) ==> Attachable(t, dev, h)
  }

  ghost predicate Fits(t: Tables, inp: Input, oldCharge: int)
    requires inp.col in t.collections
  {
    && MetaOf(inp).size <= 262144
    && (inp.blob == "" ==> 0 <= inp.size <= t.maxBlob)
    && QuotaAllows(t, t.collections[inp.col].owner, NewCharge(t, inp) - oldCharge)
  }

  // An item that changes its object.
  ghost predicate Acceptable(t: Tables, dev: Caller, inp: Input) {
    && WellFormed(inp) && MayPlace(t, dev, inp)
    && match inp.op
       case Create => inp.oid !in t.objects && ContentOk(t, dev, inp, None) && Fits(t, inp, 0)
       case Update =>
         && Fresh(t, inp) && ContentOk(t, dev, inp, Some(t.objects[inp.oid])) && Fits(t, inp, t.objects[inp.oid].charged)
       case Delete => Fresh(t, inp)
       case OtherOp => false
  }

  // The object is live, and at the revision the item is based on or forced.
  predicate Fresh(t: Tables, inp: Input) {
    inp.oid in t.objects && !t.objects[inp.oid].deleted && (inp.force || t.objects[inp.oid].rev == inp.base)
  }

  // ---- the checks, one by one ---------------------------------------------------

  lemma GateExactly(t: Tables, dev: Caller, inp: Input)
    ensures GateError(t, dev, inp) == NoError <==> WellFormed(inp) && MayPlace(t, dev, inp)
  {
    hide AccessFor, MirrorReadOnly, MetaOf, CollectionOwner, ValidId;
  }

  // The references a caller can show stay what they were while its blobs are
  // attached, whoever the owner is that gains them.
  ghost predicate SameShown(t: Tables, refs: set<(Id, Hash)>, dev: Caller) {
    !dev.System() ==> forall h :: (dev.user, h) in refs <==> (dev.user, h) in t.blobRefs
  }

  lemma AddRefKeepsShown(t: Tables, refs: set<(Id, Hash)>, dev: Caller, owner: Id, h: Hash)
    requires SameShown(t, refs, dev) && Attachable(t, dev, h)
    ensures SameShown(t, AddRef(refs, owner, h), dev)
  {}

  lemma {:induction false} EnsureAllExactly(t: Tables, refs: set<(Id, Hash)>, dev: Caller, owner: Id, hs: seq<Hash>)
    requires SameShown(t, refs, dev)
    ensures EnsureAll(t, refs, dev, owner, hs).1 == NoError <==> forall h :: h in hs ==> Attachable(t, dev, h)
    decreases |hs|
  {
    if hs != [] {
      assert BlobError(t, refs, dev, hs[0], "") == NoError <==> Attachable(t, dev, hs[0]);
      assert forall h :: h in hs <==> h == hs[0] || h in hs[1..];
      if Attachable(t, dev, hs[0]) {
        AddRefKeepsShown(t, refs, dev, owner, hs[0]);
        EnsureAllExactly(t, AddRef(refs, owner, hs[0]), dev, owner, hs[1..]);
      }
    }
  }

  lemma AttachExactly(t: Tables, dev: Caller, owner: Id, inp: Input)
    ensures var (refs, e) := AttachNew(t, dev, owner, inp);
      && (e == NoError <==> (inp.blob != "" ==> (inp.hash == "" || inp.hash == inp.blob) && Attachable(t, dev, inp.blob)))
      && (e == NoError ==> SameShown(t, refs, dev))
  {
    if inp.blob != "" && Attachable(t, dev, inp.blob) { AddRefKeepsShown(t, t.blobRefs, dev, owner, inp.blob); }
  }

  lemma RestExactly(t: Tables, refs: set<(Id, Hash)>, dev: Caller, inp: Input, hs: seq<Hash>, oldCharge: int)
    requires inp.col in t.collections && SameShown(t, refs, dev)
    ensures CheckRest(t, refs, dev, inp, hs, oldCharge).1 == NoError <==>
      (forall h :: h in hs ==> Attachable(t, dev, h)) && Fits(t, inp, oldCharge)
  {
    hide EnsureAll, QuotaAllows, NewCharge, MetaOf, Attachable, SameShown;
    EnsureAllExactly(t, refs, dev, t.collections[inp.col].owner, hs);
  }

  lemma CreateExactly(t: Tables, dev: Caller, inp: Input)
    requires inp.col in t.collections
    ensures CheckCreate(t, dev, inp).1 == NoError <==> ContentOk(t, dev, inp, None) && Fits(t, inp, 0)
  {
    hide AttachNew, CheckRest, Fits, Attachable, SameShown, MetaOf;
    var owner := t.collections[inp.col].owner;
    AttachExactly(t, dev, owner, inp);
    var (refs, e) := AttachNew(t, dev, owner, inp);
    if e == NoError { RestExactly(t, refs, dev, inp, AllBlobs(MetaOf(inp)), 0); }
  }

  lemma UpdateExactly(t: Tables, dev: Caller, inp: Input, obj: Object)
    requires inp.col in t.collections
    ensures CheckUpdate(t, dev, inp, obj).1 == NoError <==> ContentOk(t, dev, inp, Some(obj)) && Fits(t, inp, obj.charged)
  {
    hide AttachNew, CheckRest, Fits, Attachable, MetaOf;
    var owner := t.collections[inp.col].owner;
    AttachExactly(t, dev, owner, inp);
    var (refs, e) := AttachChanged(t, dev, owner, inp, obj);
    if e == NoError { RestExactly(t, refs, dev, inp, NewBlobs(obj.meta, MetaOf(inp)), obj.charged); }
  }

  // ---- the outcomes -----------------------------------------------------------------

  // An item changes its object exactly when every rule allows it.
  lemma AcceptedExactly(t: Tables, dev: Caller, inp: Input)
    ensures Decide(t, dev, inp).write.Some? <==> Acceptable(t, dev, inp)
  {
    hide GateError, CheckCreate, CheckUpdate, ContentOk, Fits, WellFormed, AccessFor, CreatedRow, UpdatedRow, MetaOf, MayWrite, ValidId;
    GateExactly(t, dev, inp);
    if inp.col in t.collections {
      CreateExactly(t, dev, inp);
      if inp.oid in t.objects { UpdateExactly(t, dev, inp, t.objects[inp.oid]); }
    }
  }

  // An item is answered "conflict" exactly when it may be placed and meets an
  // object that is gone, has moved on, or is in the way of a create.
  lemma ConflictExactly(t: Tables, dev: Caller, inp: Input)
    ensures Decide(t, dev, inp).result.status == Conflict <==>
      && WellFormed(inp) && MayPlace(t, dev, inp) && inp.oid in t.objects
      && var obj := t.objects[inp.oid];
         match inp.op
         case Create => Rank(AccessFor(t, dev, obj.col)) >= Rank(Read)
         case Update => !Fresh(t, inp)
         case Delete => !obj.deleted && !Fresh(t, inp)
         case OtherOp => false
  {
    hide GateError, CheckCreate, CheckUpdate, WellFormed, AccessFor, NewCharge, StoredSize, MetaOf, MayWrite;
    GateExactly(t, dev, inp);
  }

  // What the answer says: a conflict tells the object's revision and hash on
  // the server, and nothing else does; an error has a message and no revision.
  lemma AnswerSays(t: Tables, dev: Caller, inp: Input)
    ensures var r := Decide(t, dev, inp).result;
      && r.oid == inp.oid
      && (r.status == Conflict ==>
            && inp.oid in t.objects && r.serverRev == t.objects[inp.oid].rev && r.serverHash == t.objects[inp.oid].hash
            && r.rev == 0 && r.seqNo == 0 && r.error == NoError)
      && (r.status != Conflict ==> r.serverRev == 0 && r.serverHash == "")
      && (r.status == Error <==> r.error != NoError)
      && (r.status == Error ==> r.rev == 0 && r.seqNo == 0)
  {
    hide GateError, CheckCreate, CheckUpdate, AccessFor, CreatedRow, UpdatedRow, MetaOf;
  }

  // An answer tells a revision or a hash of an object only to a caller who can
  // read where that object is.
  lemma AnswersStayInside(t: Tables, dev: Caller, inp: Input)
    ensures var r := Decide(t, dev, inp).result;
      inp.oid in t.objects && (r.rev != 0 || r.serverRev != 0 || r.serverHash != "") ==>
        Rank(AccessFor(t, dev, t.objects[inp.oid].col)) >= Rank(Read)
  {
    hide GateError, CheckCreate, CheckUpdate, WellFormed, AccessFor, NewCharge, StoredSize, MetaOf;
    GateExactly(t, dev, inp);
  }

  // Deleting what is already deleted is fine, and changes nothing.
  lemma DeleteTwice(t: Tables, dev: Caller, key: string, inp: Input)
    requires inp.op == Delete && inp.oid in t.objects && t.objects[inp.oid].deleted
    ensures ApplyOne(t, dev, key, inp).0 == t
    ensures ApplyOne(t, dev, key, inp).1.status == Ok <==> WellFormed(inp) && MayPlace(t, dev, inp)
    ensures ApplyOne(t, dev, key, inp).1.status == Ok ==> ApplyOne(t, dev, key, inp).1.rev == t.objects[inp.oid].rev
  {
    hide GateError, WellFormed, MayPlace;
    GateExactly(t, dev, inp);
  }

  // ---- what an accepted item leaves, and what the feed then says ----------------------

  // The content hash stored for an item: an empty file has the hash of nothing.
  function StoredHash(inp: Input): Hash {
    if inp.op == Create && inp.blob == "" && inp.hash == "" then SHA_OF_NOTHING else inp.hash
  }

  // The object holds what the item said.
  ghost predicate Holds(o: Object, inp: Input) {
    && !o.deleted && o.col == inp.col && o.hash == StoredHash(inp)
    && o.blob == inp.blob && o.meta == MetaOf(inp) && o.metaHash == o.meta.hash
    && (inp.blob == "" ==> o.size == inp.size)
  }

  // An accepted create or update stores its input and nothing else; an accepted
  // delete keeps the data and only marks it.
  lemma AcceptedStoresInput(t: Tables, dev: Caller, key: string, inp: Input)
    requires Acceptable(t, dev, inp)
    ensures var t' := ApplyOne(t, dev, key, inp).0;
      && t'.objects.Keys == t.objects.Keys + {inp.oid}
      && (forall o :: o in t.objects && o != inp.oid ==> t'.objects[o] == t.objects[o])
      && var after := t'.objects[inp.oid];
         && (inp.op != Delete ==> Holds(after, inp))
         && (inp.op != Delete && inp.blob in t.blobs && inp.blob != "" ==> after.size == t.blobs[inp.blob].size)
         && (inp.op == Create ==> after.kind == (if inp.kind == "" then "file" else inp.kind))
         && (inp.op == Update ==> after.kind == t.objects[inp.oid].kind)
         && (inp.op == Delete ==>
               after == t.objects[inp.oid].(rev := t.objects[inp.oid].rev + 1, deleted := true, origin := dev.id))
  {
    hide GateError, CheckCreate, CheckUpdate, Acceptable, MoveRefs, NewCharge;
    AcceptedExactly(t, dev, inp);
  }

  // The feed past the old end of a journal that grew by one entry.
  lemma OnlyRow(t: Tables, j: seq<Entry>, e: Entry, since: nat)
    requires InSeqOrder(j) && HeadSeq(j) <= since < e.seqNo && t.journal == j + [e]
    requires e.oid in t.objects && e.col in t.collections
    ensures Rows(t, t.journal, All, since, "") == [Joined(t, e)]
  {
    hide FilterAccepts;
    assert t.journal[..|t.journal| - 1] == j;
    NoRowsPastHead(t, j, All, since, "");
  }

  // What a caller pushed is what the next pull reads: the one change after the
  // old end of the journal, with the data of the input and of the stored row.
  lemma PushedIsPulled(t: Tables, dev: Caller, key: string, inp: Input)
    requires JournalInv(t) && Acceptable(t, dev, inp)
    ensures var (t', r) := ApplyOne(t, dev, key, inp);
      var rows := Rows(t', t'.journal, All, t.lastSeq, "");
      && |rows| == 1 && rows[0].oid == inp.oid && rows[0].col == inp.col && rows[0].op == inp.op
      && rows[0].seqNo == r.seqNo && rows[0].rev == r.rev
      && (inp.op == Delete <==> rows[0].deleted)
      && (inp.op != Delete ==> rows[0].hash == StoredHash(inp) && rows[0].meta == Some(MetaOf(inp)) && rows[0].blob == inp.blob)
      && inp.oid in t'.objects
      && var o := t'.objects[inp.oid];
         && rows[0].metaHash == o.metaHash && rows[0].meta == Some(o.meta) && rows[0].blob == o.blob
         && rows[0].size == o.size && rows[0].kind == o.kind
  {
    hide ApplyOne, Acceptable, JournalInv, InSeqOrder, Rows, MetaOf, StoredHash, HeadSeq;
    var e := AcceptedAppends(t, dev, key, inp);
    AcceptedStoresInput(t, dev, key, inp);
    JournalEndsBelow(t);
    OnlyRow(ApplyOne(t, dev, key, inp).0, t.journal, e, t.lastSeq);
  }

  lemma JournalEndsBelow(t: Tables)
    requires JournalInv(t)
    ensures InSeqOrder(t.journal) && HeadSeq(t.journal) <= t.lastSeq
  {
    hide InSeqOrder, IsChain, Of;
  }

  // The entry an accepted item adds, and the answer that names it.
  lemma AcceptedAppends(t: Tables, dev: Caller, key: string, inp: Input) returns (e: Entry)
    requires Acceptable(t, dev, inp)
    ensures var (t', r) := ApplyOne(t, dev, key, inp);
      && t'.journal == t.journal + [e] && t'.collections == t.collections
      && e.oid == inp.oid && e.col == inp.col && e.op == inp.op && e.seqNo == r.seqNo == t.lastSeq + 1 && e.rev == r.rev
      && e.oid in t'.objects && e.col in t.collections
      && (e.op == Delete <==> t'.objects[e.oid].deleted)
      && e.hash == t'.objects[e.oid].hash && e.metaHash == t'.objects[e.oid].metaHash
  {
    hide Decide, Acceptable, MoveRefs, Cost, QuotaAllows, CollectionOwner, ValidId, Extra, LiveExtra, LiveBlob, BlobSize;
    AcceptedExactly(t, dev, inp);
    DecisionsAreValid(t, dev, inp);
    var w := Decide(t, dev, inp).write.value;
    e := Entry(t.lastSeq + 1, inp.oid, w.col, w.op, w.row.rev, w.row.hash, w.row.metaHash, dev.id, key);
  }

  // ---- batches and references ---------------------------------------------------------

  // Result i of a batch is the answer to item i, on what the items before it left.
  lemma {:induction false} ResultsInOrder(t: Tables, dev: Caller, key: string, items: seq<Input>, i: nat)
    requires i < |items|
    ensures var r := ApplyAll(t, dev, key, items).1[i];
      r == ApplyOne(ApplyAll(t, dev, key, items[..i]).0, dev, key, items[i]).1 && r.oid == items[i].oid
    decreases |items|
  {
    hide ApplyOne;
    if i == |items| - 1 {
      ItemIsNamed(ApplyAll(t, dev, key, items[..i]).0, dev, key, items[i]);
    } else {
      var front := items[..|items| - 1];
      ResultsInOrder(t, dev, key, front, i);
      assert front[..i] == items[..i];
    }
  }

  lemma ItemIsNamed(t: Tables, dev: Caller, key: string, inp: Input)
    ensures ApplyOne(t, dev, key, inp).1.oid == inp.oid
  {
    hide Decide;
    AnswerSays(t, dev, inp);
  }

  lemma {:induction false} EnsureAllGives(t: Tables, refs: set<(Id, Hash)>, dev: Caller, owner: Id, hs: seq<Hash>)
    requires owner != "" && "" !in hs && EnsureAll(t, refs, dev, owner, hs).1 == NoError
    ensures forall h :: h in hs ==> (owner, h) in EnsureAll(t, refs, dev, owner, hs).0
    decreases |hs|
  {
    if hs != [] { EnsureAllGives(t, AddRef(refs, owner, hs[0]), dev, owner, hs[1..]); }
  }

  // A blob the item names and its object, if it is updated, did not.
  predicate NewlyNamed(t: Tables, inp: Input, h: Hash) {
    var updated := inp.op == Update && inp.oid in t.objects;
    || (h == inp.blob != "" && !(updated && t.objects[inp.oid].blob == h))
    || (h in Extra(MetaOf(inp)) && !(updated && h in Extra(t.objects[inp.oid].meta)))
  }

  // Whoever pushed it, the owner of the collection then holds every blob the
  // item newly names, and may attach it to anything else.
  lemma OwnerHoldsWhatIsNamed(t: Tables, dev: Caller, key: string, inp: Input, h: Hash)
    requires Acceptable(t, dev, inp) && inp.op != Delete && t.collections[inp.col].owner != "" && NewlyNamed(t, inp, h)
    ensures (t.collections[inp.col].owner, h) in ApplyOne(t, dev, key, inp).0.blobRefs
  {
    hide GateError, ContentOk, Fits, WellFormed, AccessFor, MirrorReadOnly, CreatedRow, UpdatedRow, MetaOf, ValidId, MoveRefs,
         ChargeError, QuotaAllows, NewCharge, EnsureAll, AttachNew, AttachChanged;
    AcceptedExactly(t, dev, inp);
    AttachGives(t, dev, t.collections[inp.col].owner, inp);
    if inp.op == Create {
      RestGives(t, AttachNew(t, dev, t.collections[inp.col].owner, inp).0, dev, inp, AllBlobs(MetaOf(inp)), 0);
    } else {
      var obj := t.objects[inp.oid];
      ChangeGives(t, dev, t.collections[inp.col].owner, inp, obj);
      RestGives(t, AttachChanged(t, dev, t.collections[inp.col].owner, inp, obj).0, dev, inp, NewBlobs(obj.meta, MetaOf(inp)), obj.charged);
    }
  }

  lemma AttachGives(t: Tables, dev: Caller, owner: Id, inp: Input)
    requires owner != ""
    ensures var (refs, e) := AttachNew(t, dev, owner, inp); e == NoError && inp.blob != "" ==> (owner, inp.blob) in refs
  {}

  lemma ChangeGives(t: Tables, dev: Caller, owner: Id, inp: Input, obj: Object)
    requires owner != ""
    ensures var (refs, e) := AttachChanged(t, dev, owner, inp, obj);
      e == NoError && inp.blob != "" && inp.blob != obj.blob ==> (owner, inp.blob) in refs
  {
    AttachGives(t, dev, owner, inp);
  }

  lemma RestGives(t: Tables, refs: set<(Id, Hash)>, dev: Caller, inp: Input, hs: seq<Hash>, oldCharge: int)
    requires inp.col in t.collections && t.collections[inp.col].owner != "" && "" !in hs
    ensures var (refs', e) := CheckRest(t, refs, dev, inp, hs, oldCharge);
      refs <= refs' && (e == NoError ==> forall h :: h in hs ==> (t.collections[inp.col].owner, h) in refs')
  {
    hide ChargeError, QuotaAllows, NewCharge;
    var owner := t.collections[inp.col].owner;
    if EnsureAll(t, refs, dev, owner, hs).1 == NoError { EnsureAllGives(t, refs, dev, owner, hs); }
  }
}
