// Quota over whole batches: usage is an exact sum of stored charges, and no
// batch takes an owner past the larger of the quota and the usage before it.

module Quota {
  import opened Wrappers
  import opened Model
  import opened Access
  import opened PushSpec
  import opened Sums
  import opened Writes
  import Refs

  // Tombstoned collections hold no live objects.
  ghost predicate LiveObjectsInLiveCollections(t: Tables) {
    forall o :: o in t.objects && !t.objects[o].deleted ==>
      t.objects[o].col in t.collections && !t.collections[t.objects[o].col].deleted
  }

  // Every live row is charged what it stores: bytes, metadata and each extra blob once.
  ghost predicate ChargesExact(t: Tables) {
    forall o :: o in t.objects && !t.objects[o].deleted ==>
      var row := t.objects[o];
      && row.size >= 0
      && row.charged == Cost(t.blobs, row.size, row.blob, row.meta)
      && (row.blob != "" ==> row.size == BlobSize(t.blobs, row.blob))
  }

  function Counted(t: Tables, owner: Id, o: Option<Object>): int {
    if o.Some? && CountsFor(t.collections, owner, o.value) then o.value.charged else 0
  }

  // A write moves every owner's usage by the difference of what is counted.
  lemma UsageMoves(t: Tables, oid: Id, w: RowWrite, dev: Id, key: string, u: Id)
    ensures Usage(Put(t, oid, w, dev, key), u) == Usage(t, u) - Counted(t, u, Row(t, oid)) + Counted(t, u, Some(w.row))
  {
    hide MoveRefs;
    var t' := Put(t, oid, w, dev, key);
    assert Charges(t', u) == Charges(t, u)[oid := Counted(t, u, Some(w.row))];
    SumUpdate(Charges(t, u), oid, Counted(t, u, Some(w.row)));
  }

  lemma UsageSame(t: Tables, t1: Tables, u: Id)
    requires t1.objects == t.objects && t1.collections == t.collections
    ensures Usage(t1, u) == Usage(t, u)
  {
    assert Charges(t1, u) == Charges(t, u);
  }

  ghost predicate Limited(t: Tables, u: Id) { u != "" && u in t.users && t.users[u].quota > 0 }

  function Max(a: int, b: int): int { if a > b then a else b }

  lemma ChargeIsNonNegative(t: Tables, o: Id)
    requires ChargesExact(t) && o in t.objects && !t.objects[o].deleted
    ensures t.objects[o].charged >= 0
  {
    var row := t.objects[o];
    SumBounds(map h | h in Extra(row.meta) - {row.blob} :: BlobSize(t.blobs, h));
  }

  // One item: no limited owner grows past the larger of quota and usage, and
  // only the owner of the collection it names can change at all.
  lemma ItemKeepsQuota(t: Tables, dev: Caller, key: string, inp: Input, u: Id)
    requires LiveObjectsInLiveCollections(t) && ChargesExact(t)
    ensures var t' := ApplyOne(t, dev, key, inp).0;
      && (Limited(t, u) ==> Usage(t', u) <= Max(t.users[u].quota, Usage(t, u)))
      && (CollectionOwner(t, inp.col) != u ==> Usage(t', u) == Usage(t, u))
  {
    hide Decide, ValidId, Cost, Usage, Extra, MoveRefs;
    DecisionsAreValid(t, dev, inp);
    var d := Decide(t, dev, inp);
    var t1 := t.(blobRefs := d.refs);
    UsageSame(t, t1, u);
    if d.write.Some? {
      if inp.oid in t.objects { ChargeIsNonNegative(t, inp.oid); }
      UsageMoves(t1, inp.oid, d.write.value, dev.id, key, u);
    }
  }

  lemma ItemKeepsCharges(t: Tables, dev: Caller, key: string, inp: Input)
    requires ChargesExact(t)
    ensures ChargesExact(ApplyOne(t, dev, key, inp).0)
  {
    DecisionsAreValid(t, dev, inp);
    var d := Decide(t, dev, inp);
    hide Decide, ValidId, Cost, Usage, Extra, Put, ValidWrite;
    if d.write.Some? {
      var t1 := t.(blobRefs := d.refs);
      SameWrite(t, t1, inp.oid, d.write.value);
      assert ChargesExact(t1);
      hide ChargesExact;
      PutKeepsCharges(t1, inp.oid, d.write.value, dev.id, key);
    }
  }

  lemma ItemKeepsPlaces(t: Tables, dev: Caller, key: string, inp: Input)
    requires LiveObjectsInLiveCollections(t) && ChargesExact(t)
    ensures var t' := ApplyOne(t, dev, key, inp).0; LiveObjectsInLiveCollections(t') && ChargesExact(t')
  {
    hide Decide, ValidId, Cost, Usage, Extra, MoveRefs, ChargesExact;
    ItemKeepsCharges(t, dev, key, inp);
    DecisionsAreValid(t, dev, inp);
  }

  lemma ItemFrame(t: Tables, dev: Caller, key: string, inp: Input)
    ensures var t' := ApplyOne(t, dev, key, inp).0;
      && t'.users == t.users && t'.collections == t.collections && t'.shares == t.shares && t'.members == t.members
      && t'.files == t.files && t'.devices == t.devices && t'.acks == t.acks && t'.idem == t.idem && t'.maxBlob == t.maxBlob
      && t.blobRefs <= t'.blobRefs && t.lastSeq <= t'.lastSeq
  {
    hide Decide, MoveRefs;
    DecisionsAreValid(t, dev, inp);
  }

  lemma {:induction false} BatchFrame(t: Tables, dev: Caller, key: string, items: seq<Input>)
    ensures var t' := ApplyAll(t, dev, key, items).0;
      && t'.users == t.users && t'.collections == t.collections && t'.shares == t.shares && t'.members == t.members
      && t'.files == t.files && t'.devices == t.devices && t'.acks == t.acks && t'.idem == t.idem && t'.maxBlob == t.maxBlob
      && t.blobRefs <= t'.blobRefs && t.lastSeq <= t'.lastSeq
    decreases |items|
  {
    hide ApplyOne;
    if items != [] {
      BatchFrame(t, dev, key, items[..|items| - 1]);
      ItemFrame(ApplyAll(t, dev, key, items[..|items| - 1]).0, dev, key, items[|items| - 1]);
    }
  }

  // The whole batch: usage ends at most at max(quota, usage before), and the
  // usage of owners whose collections the batch never names is unchanged.
  lemma {:induction false} BatchKeepsQuota(t: Tables, dev: Caller, key: string, items: seq<Input>, u: Id)
    requires LiveObjectsInLiveCollections(t) && ChargesExact(t)
    ensures var t' := ApplyAll(t, dev, key, items).0;
      && LiveObjectsInLiveCollections(t') && ChargesExact(t')
      && (Limited(t, u) ==> Usage(t', u) <= Max(t.users[u].quota, Usage(t, u)))
      && ((forall i :: 0 <= i < |items| ==> CollectionOwner(t, items[i].col) != u) ==> Usage(t', u) == Usage(t, u))
    decreases |items|
  {
    hide ApplyOne, Usage, LiveObjectsInLiveCollections, ChargesExact;
    if items != [] {
      var head := items[..|items| - 1];
      var last := items[|items| - 1];
      BatchKeepsQuota(t, dev, key, head, u);
      BatchFrame(t, dev, key, head);
      ItemKeepsQuota(ApplyAll(t, dev, key, head).0, dev, key, last, u);
      ItemKeepsPlaces(ApplyAll(t, dev, key, head).0, dev, key, last);
    }
  }

  lemma CostNeedsOnlySizes(b1: map<Hash, Blob>, b2: map<Hash, Blob>, size: int, blob: Hash, meta: Meta)
    requires b1.Keys == b2.Keys && forall h :: h in b1 ==> b1[h].size == b2[h].size
    ensures Cost(b1, size, blob, meta) == Cost(b2, size, blob, meta)
  {
    var hs := Extra(meta) - {blob};
    assert (map h | h in hs :: BlobSize(b1, h)) == (map h | h in hs :: BlobSize(b2, h));
  }

  // Stored charges stay exact through every write.
  lemma PutKeepsCharges(t: Tables, oid: Id, w: RowWrite, dev: Id, key: string)
    requires ChargesExact(t) && ValidWrite(t, oid, w)
    ensures ChargesExact(Put(t, oid, w, dev, key))
  {
    hide MoveRefs, QuotaAllows, ValidId, CollectionOwner;
    var t' := Put(t, oid, w, dev, key);
    Refs.MoveRefsKeys(t.blobs, Row(t, oid), Some(w.row));
    forall o | o in t'.objects && !t'.objects[o].deleted
      ensures var row := t'.objects[o];
        && row.size >= 0
        && row.charged == Cost(t'.blobs, row.size, row.blob, row.meta)
        && (row.blob != "" ==> row.size == BlobSize(t'.blobs, row.blob))
    {
      var row := t'.objects[o];
      CostNeedsOnlySizes(t.blobs, t'.blobs, row.size, row.blob, row.meta);
      if o != oid { assert row == t.objects[o]; }
    }
  }

  // Without that premise the bound is lost: an update that moves a live
  // object out of a tombstoned collection is checked for its growth only, but
  // adds its whole charge to the owner's usage.
  lemma MoveOutOfTombstonedCollectionEscapes(oid: Id, src: Id, dst: Id, u: Id) returns (t: Tables, dev: Caller, inp: Input)
    requires ValidId(oid) && ValidId(src) && ValidId(dst) && src != dst && u != ""
    ensures Limited(t, u) && ChargesExact(t) && Decide(t, dev, inp).write.Some?
    ensures Usage(ApplyOne(t, dev, "", inp).0, u) > Max(t.users[u].quota, Usage(t, u))
  {
    hide Decide, GateError, DecideUpdate, Distinct, NewOnly, EnsureAll, MoveRefs;
    var m := EmptyMeta();
    dev := Caller("", "", true, false);
    var gone := Collection("files", "a", "", u, src, true, 1, false, "");
    var live := Collection("files", "b", "", u, dst, false, 1, false, "");
    var row := Object(src, "file", 1, "", m.hash, "", 10, 12, "", m, false);
    t := Tables(map[oid := row], [Entry(1, oid, src, Create, 1, "", m.hash, "", "")], 1, map[], {}, {},
                map[src := gone, dst := live], map[], {}, map[u := User(true, 1)], map[], map[], map[], 100);
    inp := Input(oid, dst, "", Update, 1, "", "", None, "", 10, false);
    SoleMoveIsAccepted(t, dev, inp, src);
    var d := Decide(t, dev, inp);
    var t1 := t.(blobRefs := d.refs);
    UsageMoves(t1, oid, d.write.value, "", "", u);
    UsageSame(t, t1, u);
    var charges := Charges(t, u);
    assert charges == map[oid := 0];
    SumRemove(charges, oid);
    assert charges - {oid} == map[];
  }

  // The accepted update in the state above.
  lemma SoleMoveIsAccepted(t: Tables, dev: Caller, inp: Input, src: Id)
    requires inp.oid in t.objects && dev == Caller("", "", true, false) && ValidId(inp.oid) && ValidId(inp.col)
    requires inp == Input(inp.oid, inp.col, "", Update, 1, "", "", None, "", 10, false)
    requires t.objects[inp.oid] == Object(src, "file", 1, "", EmptyMeta().hash, "", 10, 12, "", EmptyMeta(), false)
    requires src in t.collections && inp.col in t.collections && !t.collections[inp.col].deleted
    requires t.collections[src].owner == t.collections[inp.col].owner && t.maxBlob == 100
    ensures Cost(t.blobs, 10, "", EmptyMeta()) == 12
    ensures var d := Decide(t, dev, inp); d.write == Some(RowWrite(t.objects[inp.oid].(col := inp.col, rev := 2), inp.col, Update))
  {
    hide ValidId;
    var m := EmptyMeta();
    assert Extra(m) - {""} == {};
    assert (map h | h in Extra(m) - {""} :: BlobSize(t.blobs, h)) == map[];
    assert Distinct(m.named) == [];
    assert NewBlobs(m, m) == [];
    assert EnsureAll(t, t.blobRefs, dev, t.collections[inp.col].owner, []) == (t.blobRefs, NoError);
    assert GateError(t, dev, inp) == NoError;
    hide GateError, Cost, EnsureAll, Distinct, NewOnly, Extra;
    assert CheckUpdate(t, dev, inp, t.objects[inp.oid]) == (t.blobRefs, NoError);
  }
}
