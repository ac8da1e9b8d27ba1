// What the messages of refused items say.

module Errors {
  import opened Wrappers
  import opened Model
  import opened Access
  import opened PushSpec
  import opened Outcomes

  // Every message is true of the item: the rule it names is the one broken.
  ghost predicate ErrorHolds(t: Tables, dev: Caller, inp: Input, e: PushError) {
    match e
    case NoError => true
    case InvalidId => !ValidId(inp.oid) || !ValidId(inp.col)
    case InvalidOp => inp.op == OtherOp
    case MetadataHashMismatch => inp.op != Delete && inp.metaHash != "" && inp.metaHash != MetaOf(inp).hash
    case CollectionNotFound => inp.col !in t.collections
    case CollectionDeleted => inp.col in t.collections && t.collections[inp.col].deleted
    case Unauthorized => !CallerMayPlace(t, dev, inp)
    case MirrorReadOnlyError => MirrorReadOnly(t, dev, inp.col) || (inp.oid in t.objects && MirrorReadOnly(t, dev, t.objects[inp.oid].col))
    case ObjectIdInUse =>
      inp.op == Create && inp.oid in t.objects && Rank(AccessFor(t, dev, t.objects[inp.oid].col)) < Rank(Read)
    case NotFound => inp.op != Create && inp.oid !in t.objects
    case BlobMissing => exists h :: NewlyNamed(t, inp, h) && !Attachable(t, dev, h)
    case ContentHashMismatch => inp.blob != "" && inp.hash != "" && inp.hash != inp.blob
    case MetadataTooLarge => MetaOf(inp).size > 262144
    case InvalidSize => inp.blob == "" && (inp.size < 0 || inp.size > t.maxBlob)
    case QuotaExceeded =>
      inp.col in t.collections &&
      var owner := t.collections[inp.col].owner;
      && owner in t.users && 0 < t.users[owner].quota < Usage(t, owner) + NewCharge(t, inp) - ChargeBefore(t, inp)
  }

  predicate CallerMayPlace(t: Tables, dev: Caller, inp: Input) {
    && Rank(AccessFor(t, dev, inp.col)) >= Rank(Write)
    && (inp.oid in t.objects && t.objects[inp.oid].col != inp.col ==>
          Rank(AccessFor(t, dev, t.objects[inp.oid].col)) >= Rank(Write)
          && CollectionOwner(t, t.objects[inp.oid].col) == CollectionOwner(t, inp.col))
  }

  function ChargeBefore(t: Tables, inp: Input): int {
    if inp.op == Update && inp.oid in t.objects then t.objects[inp.oid].charged else 0
  }

  lemma GateErrorHolds(t: Tables, dev: Caller, inp: Input)
    ensures ErrorHolds(t, dev, inp, GateError(t, dev, inp))
  {
    hide AccessFor, MetaOf, ValidId, MirrorReadOnly, Usage, NewCharge, NewlyNamed, Attachable;
  }

  lemma {:induction false} EnsureAllErrors(t: Tables, refs: set<(Id, Hash)>, dev: Caller, owner: Id, hs: seq<Hash>)
    requires SameShown(t, refs, dev)
    ensures var e := EnsureAll(t, refs, dev, owner, hs).1;
      e != NoError ==> e == BlobMissing && exists h :: h in hs && !Attachable(t, dev, h)
    decreases |hs|
  {
    if hs != [] {
      if Attachable(t, dev, hs[0]) {
        AddRefKeepsShown(t, refs, dev, owner, hs[0]);
        EnsureAllErrors(t, AddRef(refs, owner, hs[0]), dev, owner, hs[1..]);
      } else {
        assert hs[0] in hs;
      }
    }
  }

  lemma RestErrorHolds(t: Tables, refs: set<(Id, Hash)>, dev: Caller, inp: Input, hs: seq<Hash>, oldCharge: int)
    requires inp.col in t.collections && SameShown(t, refs, dev) && oldCharge == ChargeBefore(t, inp)
    requires forall h :: h in hs ==> NewlyNamed(t, inp, h)
    ensures ErrorHolds(t, dev, inp, CheckRest(t, refs, dev, inp, hs, oldCharge).1)
  {
    hide EnsureAll, NewCharge, MetaOf, Attachable, SameShown, NewlyNamed, Usage, AccessFor, ValidId;
    EnsureAllErrors(t, refs, dev, t.collections[inp.col].owner, hs);
  }

  lemma AttachErrorHolds(t: Tables, dev: Caller, owner: Id, inp: Input)
    requires inp.blob != "" ==> NewlyNamed(t, inp, inp.blob)
    ensures ErrorHolds(t, dev, inp, AttachNew(t, dev, owner, inp).1)
  {
    hide NewlyNamed, Usage, NewCharge, AccessFor, ValidId, MetaOf;
  }

  lemma CreateErrorHolds(t: Tables, dev: Caller, inp: Input)
    requires inp.col in t.collections && inp.op == Create
    ensures ErrorHolds(t, dev, inp, CheckCreate(t, dev, inp).1)
  {
    hide AttachNew, CheckRest, Attachable, SameShown, MetaOf, ErrorHolds, ContentOk;
    var owner := t.collections[inp.col].owner;
    AttachExactly(t, dev, owner, inp);
    AttachErrorHolds(t, dev, owner, inp);
    var (refs, e) := AttachNew(t, dev, owner, inp);
    if e == NoError { RestErrorHolds(t, refs, dev, inp, AllBlobs(MetaOf(inp)), 0); }
  }

  lemma UpdateErrorHolds(t: Tables, dev: Caller, inp: Input)
    requires inp.col in t.collections && inp.op == Update && inp.oid in t.objects
    ensures ErrorHolds(t, dev, inp, CheckUpdate(t, dev, inp, t.objects[inp.oid]).1)
  {
    hide AttachNew, CheckRest, Attachable, SameShown, MetaOf, ContentOk, Usage, NewCharge, AccessFor, ValidId;
    var obj := t.objects[inp.oid];
    var owner := t.collections[inp.col].owner;
    AttachExactly(t, dev, owner, inp);
    if inp.blob != "" && inp.blob != obj.blob { AttachErrorHolds(t, dev, owner, inp); }
    var (refs, e) := AttachChanged(t, dev, owner, inp, obj);
    if e == NoError {
      assert SameShown(t, refs, dev) by { SameShownAtFirst(t, dev); }
      RestErrorHolds(t, refs, dev, inp, NewBlobs(obj.meta, MetaOf(inp)), obj.charged);
    }
  }

  lemma SameShownAtFirst(t: Tables, dev: Caller)
    ensures SameShown(t, t.blobRefs, dev)
  {}

  lemma ErrorsAreTrue(t: Tables, dev: Caller, inp: Input)
    ensures ErrorHolds(t, dev, inp, Decide(t, dev, inp).result.error)
  {
    hide GateError, CheckCreate, CheckUpdate, AccessFor, CreatedRow, UpdatedRow, MetaOf, Usage, NewCharge, ValidId, NewlyNamed, Attachable;
    GateErrorHolds(t, dev, inp);
    if inp.col in t.collections {
      if inp.op == Create { CreateErrorHolds(t, dev, inp); }
      if inp.op == Update && inp.oid in t.objects { UpdateErrorHolds(t, dev, inp); }
    }
  }
}
