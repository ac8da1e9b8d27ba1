// Blob reference counts: blobs.refcount always equals a recount of the live
// objects, so decrements never hit the clamp at zero.

module Refs {
  import opened Wrappers
  import opened Model
  import opened PushSpec
  import opened Sums
  import opened Writes

  // How often one row uses a blob: as its data, and once as a metadata blob.
  function Uses(o: Object, h: Hash): int {
    if o.deleted || h == "" then 0 else (if o.blob == h then 1 else 0) + (if h in Extra(o.meta) then 1 else 0)
  }

  function UsesRow(o: Option<Object>, h: Hash): int { if o.None? then 0 else Uses(o.value, h) }

  ghost function UseMap(objects: map<Id, Object>, h: Hash): map<Id, int> {
    map o | o in objects :: Uses(objects[o], h)
  }

  // LiveBlobRefs for one hash: the source of truth for garbage collection.
  ghost function Recount(objects: map<Id, Object>, h: Hash): int { Sum(UseMap(objects, h)) }

  ghost predicate LiveRefsStored(t: Tables) {
    forall o :: o in t.objects && !t.objects[o].deleted ==>
      (t.objects[o].blob == "" || t.objects[o].blob in t.blobs) && Extra(t.objects[o].meta) <= t.blobs.Keys
  }

  ghost predicate CountsExact(t: Tables) {
    forall h :: h in t.blobs ==> t.blobs[h].refcount == Recount(t.objects, h)
  }

  ghost predicate RefInv(t: Tables) {
    && "" !in t.blobs
    && t.blobs.Keys <= t.files
    && LiveRefsStored(t)
    && CountsExact(t)
  }

  lemma RecountPut(objects: map<Id, Object>, oid: Id, row: Object, h: Hash)
    ensures Recount(objects[oid := row], h)
         == Recount(objects, h) - (if oid in objects then Uses(objects[oid], h) else 0) + Uses(row, h)
  {
    assert UseMap(objects[oid := row], h) == UseMap(objects, h)[oid := Uses(row, h)];
    SumUpdate(UseMap(objects, h), oid, Uses(row, h));
  }

  lemma RecountCovers(objects: map<Id, Object>, h: Hash)
    ensures Recount(objects, h) >= 0
    ensures forall o :: o in objects ==> Uses(objects[o], h) <= Recount(objects, h)
    ensures Recount(objects, h) == 0 <==> forall o :: o in objects ==> Uses(objects[o], h) == 0
  {
    var m := UseMap(objects, h);
    SumBounds(m);
    forall o | o in objects ensures Uses(objects[o], h) <= Sum(m) { assert m[o] == Uses(objects[o], h); }
    if forall o :: o in objects ==> Uses(objects[o], h) == 0 {
      SumDropZeros(m, m.Keys);
      assert m - m.Keys == map[];
    }
  }

  lemma MoveRefsAt(blobs: map<Hash, Blob>, before: Option<Object>, after: Option<Object>, h: Hash)
    requires "" !in blobs && h in blobs && blobs[h].refcount >= UsesRow(before, h)
    ensures h in MoveRefs(blobs, before, after)
    ensures MoveRefs(blobs, before, after)[h]
         == Blob(blobs[h].size, blobs[h].refcount - UsesRow(before, h) + UsesRow(after, h))
  {
    var b := if LiveBlob(before) == LiveBlob(after) then blobs
             else Inc(Dec(blobs, LiveBlob(before)), LiveBlob(after));
    var outBlob := if LiveBlob(before) == h then 1 else 0;
    var inBlob := if LiveBlob(after) == h then 1 else 0;
    assert h in b && b[h] == Blob(blobs[h].size, blobs[h].refcount - outBlob + inBlob);
    var outExtra := if h in LiveExtra(before) then 1 else 0;
    var inExtra := if h in LiveExtra(after) then 1 else 0;
    assert UsesRow(before, h) == outBlob + outExtra && UsesRow(after, h) == inBlob + inExtra;
  }

  lemma MoveRefsKeys(blobs: map<Hash, Blob>, before: Option<Object>, after: Option<Object>)
    ensures MoveRefs(blobs, before, after).Keys == blobs.Keys
    ensures forall h :: h in blobs ==> MoveRefs(blobs, before, after)[h].size == blobs[h].size
  {
    var b := if LiveBlob(before) == LiveBlob(after) then blobs
             else Inc(Dec(blobs, LiveBlob(before)), LiveBlob(after));
    assert b.Keys == blobs.Keys;
  }

  // A write moves every count by exactly the difference of uses: from a
  // consistent state the clamp in DecBlobRef never changes a result.
  lemma CountsMoveExactly(t: Tables, oid: Id, w: RowWrite, dev: Id, key: string, h: Hash)
    requires RefInv(t) && h in t.blobs
    ensures h in Put(t, oid, w, dev, key).blobs
    ensures Put(t, oid, w, dev, key).blobs[h]
         == Blob(t.blobs[h].size, t.blobs[h].refcount - UsesRow(Row(t, oid), h) + Uses(w.row, h))
  {
    hide MoveRefs;
    RecountCovers(t.objects, h);
    MoveRefsAt(t.blobs, Row(t, oid), Some(w.row), h);
  }

  lemma PutKeepsRefs(t: Tables, oid: Id, w: RowWrite, dev: Id, key: string)
    requires RefInv(t) && ValidWrite(t, oid, w)
    ensures RefInv(Put(t, oid, w, dev, key))
    ensures Put(t, oid, w, dev, key).blobs.Keys == t.blobs.Keys
  {
    hide MoveRefs, Cost, QuotaAllows, CollectionOwner, ValidId;
    var t' := Put(t, oid, w, dev, key);
    MoveRefsKeys(t.blobs, Row(t, oid), Some(w.row));
    forall h | h in t'.blobs ensures t'.blobs[h].refcount == Recount(t'.objects, h) {
      CountsMoveExactly(t, oid, w, dev, key, h);
      RecountPut(t.objects, oid, w.row, h);
    }
    forall o | o in t'.objects && !t'.objects[o].deleted
      ensures (t'.objects[o].blob == "" || t'.objects[o].blob in t'.blobs) && Extra(t'.objects[o].meta) <= t'.blobs.Keys
    {
      if o == oid {
        forall h | h in Extra(w.row.meta) ensures h in t.blobs {
          if h in LiveExtra(Row(t, oid)) { assert h in Extra(t.objects[oid].meta); }
        }
      } else {
        assert t'.objects[o] == t.objects[o];
      }
    }
  }
}
