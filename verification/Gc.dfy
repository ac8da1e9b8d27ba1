// Garbage collection: blobs without a live reference, and tombstones every
// sync device has acknowledged; and the repair of drifted counts.

module Gc {
  import opened Wrappers
  import opened Model
  import opened PushSpec
  import opened Sums
  import opened Refs
  import opened Chain
  import opened Quota

  function Acked(t: Tables, d: Id): nat { if d in t.acks then t.acks[d] else 0 }

  // Devices whose acknowledgement tombstones wait for.
  function SyncDevices(t: Tables): set<Id> { set d | d in t.devices && t.devices[d].sync && !t.devices[d].revoked }

  // A tombstone may go once every non-revoked sync device has acknowledged
  // its last journal entry (with no such device, once it is in the journal).
  ghost predicate Compactable(t: Tables, o: Id) {
    && o in t.objects && t.objects[o].deleted && Of(t.journal, o) != []
    && (forall d :: d in SyncDevices(t) ==> LastSeq(t.journal, o) <= Acked(t, d))
    && (SyncDevices(t) == {} ==> LastSeq(t.journal, o) <= HeadSeq(t.journal))
  }

  ghost function Tombstones(t: Tables): set<Id> { set o | o in t.objects && Compactable(t, o) }

  ghost function Unused(t: Tables): set<Hash> { set h | h in t.blobs && Recount(t.objects, h) == 0 }

  function Without(j: seq<Entry>, gone: set<Id>): seq<Entry> {
    if j == [] then []
    else
      var rest := Without(j[..|j| - 1], gone);
      if j[|j| - 1].oid in gone then rest else rest + [j[|j| - 1]]
  }

  // Collect with apply set.
  ghost function Collect(t: Tables): Tables {
    var gone := Tombstones(t);
    var unused := Unused(t);
    t.(blobs := t.blobs - unused,
       files := t.files - unused,
       blobRefs := (set r | r in t.blobRefs && r.1 !in unused),
       objects := t.objects - gone,
       journal := Without(t.journal, gone))
  }

  lemma {:induction false} OfWithout(j: seq<Entry>, gone: set<Id>, o: Id)
    ensures Of(Without(j, gone), o) == if o in gone then [] else Of(j, o)
  {
    if j != [] {
      var head := j[..|j| - 1];
      var e := j[|j| - 1];
      OfWithout(head, gone, o);
      OfAppend(Without(head, gone), e, o);
    }
  }

  lemma {:induction false} WithoutMembers(j: seq<Entry>, gone: set<Id>)
    ensures forall e :: e in Without(j, gone) <==> e in j && e.oid !in gone
  {
    if j != [] {
      WithoutMembers(j[..|j| - 1], gone);
      assert j == j[..|j| - 1] + [j[|j| - 1]];
    }
  }

  lemma {:induction false} WithoutInOrder(j: seq<Entry>, gone: set<Id>)
    requires InSeqOrder(j)
    ensures InSeqOrder(Without(j, gone))
  {
    if j != [] {
      var head := j[..|j| - 1];
      WithoutInOrder(head, gone);
      WithoutMembers(head, gone);
      var rest := Without(head, gone);
      forall i | 0 <= i < |rest| ensures rest[i].seqNo < j[|j| - 1].seqNo { assert rest[i] in head; }
    }
  }

  lemma RecountWithoutTombstones(t: Tables, gone: set<Id>, h: Hash)
    requires forall o :: o in t.objects && o in gone ==> t.objects[o].deleted
    ensures Recount(t.objects - gone, h) == Recount(t.objects, h)
  {
    SumDropZeros(UseMap(t.objects, h), gone);
    assert UseMap(t.objects - gone, h) == UseMap(t.objects, h) - gone;
  }

  // Collect removes exactly the blobs that no live object uses.
  lemma CollectRemovesExactly(t: Tables, h: Hash)
    ensures h in Collect(t).blobs <==> h in t.blobs && exists o :: o in t.objects && Uses(t.objects[o], h) > 0
    ensures h in Collect(t).blobs ==> Collect(t).blobs[h] == t.blobs[h]
    ensures h in Collect(t).files <==> h in t.files && !(h in t.blobs && h !in Collect(t).blobs)
    ensures forall u :: (u, h) in Collect(t).blobRefs <==> (u, h) in t.blobRefs && !(h in t.blobs && h !in Collect(t).blobs)
  {
    RecountCovers(t.objects, h);
  }

  lemma CollectKeepsRefs(t: Tables)
    requires RefInv(t)
    ensures RefInv(Collect(t))
  {
    var t' := Collect(t);
    forall h | h in t'.blobs ensures t'.blobs[h].refcount == Recount(t'.objects, h) {
      RecountWithoutTombstones(t, Tombstones(t), h);
    }
    forall o | o in t'.objects && !t'.objects[o].deleted
      ensures (t'.objects[o].blob == "" || t'.objects[o].blob in t'.blobs) && Extra(t'.objects[o].meta) <= t'.blobs.Keys
    {
      var row := t.objects[o];
      forall h | h == row.blob || h in Extra(row.meta) ensures h == "" || h in t'.blobs {
        if h != "" {
          assert Uses(row, h) > 0;
          CollectRemovesExactly(t, h);
        }
      }
    }
  }

  lemma CollectKeepsJournal(t: Tables)
    requires JournalInv(t)
    ensures JournalInv(Collect(t))
    ensures HeadSeq(Collect(t).journal) <= HeadSeq(t.journal)
  {
    var t' := Collect(t);
    var gone := Tombstones(t);
    WithoutMembers(t.journal, gone);
    WithoutInOrder(t.journal, gone);
    forall i | 0 <= i < |t'.journal|
      ensures t'.journal[i] in t.journal && t'.journal[i].oid in t'.objects && 1 <= t'.journal[i].seqNo <= t'.lastSeq
              && t'.journal[i].seqNo <= HeadSeq(t.journal)
    {
      assert t'.journal[i] in t'.journal;
    }
    forall o | o in t'.objects ensures IsChain(t'.objects[o], Of(t'.journal, o)) { OfWithout(t.journal, gone, o); }
  }

  lemma CostOnSubmap(b1: map<Hash, Blob>, b2: map<Hash, Blob>, row: Object)
    requires forall h :: h in b2 ==> h in b1 && b1[h] == b2[h]
    requires Extra(row.meta) <= b2.Keys && (row.blob == "" || row.blob in b2)
    ensures Cost(b1, row.size, row.blob, row.meta) == Cost(b2, row.size, row.blob, row.meta)
    ensures BlobSize(b1, row.blob) == BlobSize(b2, row.blob)
  {
    var hs := Extra(row.meta) - {row.blob};
    assert (map h | h in hs :: BlobSize(b1, h)) == (map h | h in hs :: BlobSize(b2, h));
  }

  lemma CollectKeepsCharges(t: Tables)
    requires RefInv(t) && ChargesExact(t)
    ensures ChargesExact(Collect(t))
  {
    hide Cost, Compactable, CountsExact, Recount, Without, Extra;
    var t' := Collect(t);
    CollectKeepsRefs(t);
    forall o | o in t'.objects && !t'.objects[o].deleted
      ensures var row := t'.objects[o];
        && row.size >= 0
        && row.charged == Cost(t'.blobs, row.size, row.blob, row.meta)
        && (row.blob != "" ==> row.size == BlobSize(t'.blobs, row.blob))
    {
      assert t.objects[o] == t'.objects[o];
      CostOnSubmap(t.blobs, t'.blobs, t.objects[o]);
    }
  }

  // With everything acknowledged by every sync device, Collect leaves exactly
  // the live objects.
  lemma AllAcknowledged(t: Tables)
    requires JournalInv(t) && forall d :: d in SyncDevices(t) ==> HeadSeq(t.journal) <= Acked(t, d)
    ensures forall o :: o in Collect(t).objects <==> o in t.objects && !t.objects[o].deleted
  {
    hide Unused, Without, Of, InSeqOrder;
    forall o | o in t.objects && t.objects[o].deleted ensures Compactable(t, o) { LastIsBelowHead(t, o); }
  }

  lemma LastIsBelowHead(t: Tables, o: Id)
    requires JournalInv(t) && o in t.objects
    ensures Of(t.journal, o) != [] && LastSeq(t.journal, o) <= HeadSeq(t.journal)
  {
    assert IsChain(t.objects[o], Of(t.journal, o));
    LastSeqBounds(t.journal, o);
    HeadIsLast(t.journal);
  }

  // Check reports a cursor past the head of a non-empty journal. Collect can
  // cause one: it holds afterwards exactly when, for every acknowledgement,
  // an entry at or past it is not about a compactable tombstone.
  ghost predicate CursorsBehindHead(t: Tables) {
    t.journal != [] ==> forall d :: d in t.acks ==> t.acks[d] <= HeadSeq(t.journal)
  }

  ghost predicate Survives(t: Tables, e: Entry) { e in t.journal && !Compactable(t, e.oid) }

  lemma HeadIsLast(j: seq<Entry>)
    requires InSeqOrder(j)
    ensures forall e :: e in j ==> e.seqNo <= HeadSeq(j)
    ensures j != [] ==> j[|j| - 1] in j && j[|j| - 1].seqNo == HeadSeq(j)
  {}

  lemma SurvivorsRemain(t: Tables)
    requires JournalInv(t)
    ensures forall e :: e in Collect(t).journal <==> Survives(t, e)
  {
    WithoutMembers(t.journal, Tombstones(t));
    forall e | e in t.journal ensures e.oid in t.objects {
      var i :| 0 <= i < |t.journal| && t.journal[i] == e;
    }
  }

  lemma CursorsBehindHeadExactly(t: Tables)
    requires JournalInv(t)
    ensures CursorsBehindHead(Collect(t)) <==>
      ((exists e :: Survives(t, e)) ==>
        forall d :: d in t.acks ==> exists e :: Survives(t, e) && t.acks[d] <= e.seqNo)
  {
    var j := Collect(t).journal;
    SurvivorsRemain(t);
    CollectKeepsJournal(t);
    HeadIsLast(j);
    assert Collect(t).acks == t.acks;
    hide Collect, Survives, JournalInv, InSeqOrder;
    if j != [] { assert Survives(t, j[|j| - 1]); }
  }

  // It does happen: a file is kept, another is created and deleted, the only
  // device acknowledges everything, and Collect drops the head below the ack.
  lemma CollectCanStrandACursor(a: Id, b: Id, c: Id, d: Id) returns (t: Tables)
    requires a != b
    ensures JournalInv(t) && CursorsBehindHead(t) && !CursorsBehindHead(Collect(t))
  {
    hide Of, Collect;
    var m := EmptyMeta();
    var kept := Object(c, "file", 1, "", m.hash, "", 0, 2, d, m, false);
    var gone := Object(c, "file", 2, "", m.hash, "", 0, 2, d, m, true);
    var e1 := Entry(1, a, c, Create, 1, "", m.hash, d, "k");
    var e2 := Entry(2, b, c, Create, 1, "", m.hash, d, "k");
    var e3 := Entry(3, b, c, Delete, 2, "", m.hash, d, "k");
    t := Tables(map[a := kept, b := gone], [e1, e2, e3], 3, map[], {}, {}, map[], map[], {}, map[],
                map[d := DeviceRow(true, false)], map[d := 3], map[], 0);
    OfThree(e1, e2, e3);
    assert JournalInv(t);
    assert SyncDevices(t) == {d};
    assert !Compactable(t, a) && Compactable(t, b);
    CursorsBehindHeadExactly(t);
    hide JournalInv, Compactable;
    assert Survives(t, e1);
  }

  lemma OfThree(e1: Entry, e2: Entry, e3: Entry)
    requires e2.oid == e3.oid != e1.oid
    ensures Of([e1, e2, e3], e1.oid) == [e1] && Of([e1, e2, e3], e2.oid) == [e2, e3]
  {
    hide Of;
    OfNone([], e1.oid); OfNone([], e2.oid);
    assert [e1] == [] + [e1] && [e1, e2] == [e1] + [e2] && [e1, e2, e3] == [e1, e2] + [e3];
    OfAppend([], e1, e1.oid); OfAppend([e1], e2, e1.oid); OfAppend([e1, e2], e3, e1.oid);
    OfAppend([], e1, e2.oid); OfAppend([e1], e2, e2.oid); OfAppend([e1, e2], e3, e2.oid);
  }

  // RepairRefcounts.
  ghost function Repair(t: Tables): Tables {
    t.(blobs := map h | h in t.blobs :: Blob(t.blobs[h].size, Recount(t.objects, h)))
  }

  // From any state the repair restores the recount for every blob row, keeps
  // every size, and changes nothing when there was nothing to repair.
  lemma RepairRestores(t: Tables)
    ensures CountsExact(Repair(t)) && Repair(t).blobs.Keys == t.blobs.Keys
    ensures forall h :: h in t.blobs ==> Repair(t).blobs[h].size == t.blobs[h].size
    ensures Repair(t) == t <==> CountsExact(t)
  {
    if CountsExact(t) { assert Repair(t).blobs == t.blobs; }
  }
}
