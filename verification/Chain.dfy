// The journal as a chain of revisions: every stored object's entries are
// exactly its revisions 1..rev, in sequence order, ending in its own hashes.

module Chain {
  import opened Wrappers
  import opened Model
  import opened PushSpec
  import opened Writes

  // The journal entries of one object, in journal order.
  function Of(j: seq<Entry>, o: Id): seq<Entry> {
    if j == [] then []
    else
      var rest := Of(j[..|j| - 1], o);
      if j[|j| - 1].oid == o then rest + [j[|j| - 1]] else rest
  }

  // MAX(seq) over one object's entries.
  function LastSeq(j: seq<Entry>, o: Id): nat { HeadSeq(Of(j, o)) }

  ghost predicate InSeqOrder(j: seq<Entry>) {
    forall i, k :: 0 <= i < k < |j| ==> j[i].seqNo < j[k].seqNo
  }

  ghost predicate IsChain(row: Object, es: seq<Entry>) {
    && row.rev >= 1 && |es| == row.rev
    && (forall i :: 0 <= i < |es| ==> es[i].rev == i + 1)
    && (forall i :: 0 <= i < |es| ==> (es[i].op == Create <==> i == 0))
    && (forall i :: 0 <= i < |es| ==> (es[i].op == Delete <==> i == row.rev - 1 && row.deleted))
    && es[row.rev - 1].hash == row.hash && es[row.rev - 1].metaHash == row.metaHash
  }

  ghost predicate JournalInv(t: Tables) {
    && InSeqOrder(t.journal)
    && (forall i :: 0 <= i < |t.journal| ==> 1 <= t.journal[i].seqNo <= t.lastSeq)
    && (forall i :: 0 <= i < |t.journal| ==> t.journal[i].oid in t.objects)
    && (forall o :: o in t.objects ==> IsChain(t.objects[o], Of(t.journal, o)))
  }

  lemma {:induction false} OfMembers(j: seq<Entry>, o: Id)
    ensures forall e :: e in Of(j, o) <==> e in j && e.oid == o
  {
    if j != [] {
      OfMembers(j[..|j| - 1], o);
      assert j == j[..|j| - 1] + [j[|j| - 1]];
    }
  }

  lemma {:induction false} OfInOrder(j: seq<Entry>, o: Id)
    requires InSeqOrder(j)
    ensures InSeqOrder(Of(j, o))
  {
    if j != [] {
      OfInOrder(j[..|j| - 1], o);
      OfMembers(j[..|j| - 1], o);
      var rest := Of(j[..|j| - 1], o);
      forall i | 0 <= i < |rest| ensures rest[i].seqNo < j[|j| - 1].seqNo {
        assert rest[i] in j[..|j| - 1];
      }
    }
  }

  lemma OfAppend(j: seq<Entry>, e: Entry, o: Id)
    ensures Of(j + [e], o) == if e.oid == o then Of(j, o) + [e] else Of(j, o)
  {
    assert (j + [e])[..|j|] == j;
  }

  lemma {:induction false} OfNone(j: seq<Entry>, o: Id)
    requires forall i :: 0 <= i < |j| ==> j[i].oid != o
    ensures Of(j, o) == []
  {
    if j != [] { OfNone(j[..|j| - 1], o); }
  }

  // The last entry of an object bounds all of its entries.
  lemma LastSeqBounds(j: seq<Entry>, o: Id)
    requires InSeqOrder(j)
    ensures forall e :: e in j && e.oid == o ==> e.seqNo <= LastSeq(j, o)
    ensures Of(j, o) != [] ==> exists e :: e in j && e.oid == o && e.seqNo == LastSeq(j, o)
  {
    OfMembers(j, o);
    OfInOrder(j, o);
    var es := Of(j, o);
    if es != [] { assert es[|es| - 1] in j; }
  }

  // One more revision of a live row, or the first of a new one.
  lemma ChainGrows(was: Option<Object>, row: Object, es: seq<Entry>, e: Entry)
    requires if was.Some? then IsChain(was.value, es) && !was.value.deleted && row.rev == was.value.rev + 1 else es == [] && row.rev == 1
    requires e.rev == row.rev && e.hash == row.hash && e.metaHash == row.metaHash
    requires (e.op == Create <==> was.None?) && (e.op == Delete <==> row.deleted)
    ensures IsChain(row, es + [e])
  {}

  lemma PutKeepsJournal(t: Tables, oid: Id, w: RowWrite, dev: Id, key: string)
    requires JournalInv(t) && ValidWrite(t, oid, w)
    ensures JournalInv(Put(t, oid, w, dev, key))
  {
    hide MoveRefs, Cost, QuotaAllows, CollectionOwner, ValidId, Of, IsChain, Extra, LiveExtra, LiveBlob, BlobSize;
    var t' := Put(t, oid, w, dev, key);
    var e := t'.journal[|t.journal|];
    forall o | o in t'.objects ensures IsChain(t'.objects[o], Of(t'.journal, o)) {
      OfAppend(t.journal, e, o);
      if o == oid {
        if oid !in t.objects { OfNone(t.journal, oid); }
        ChainGrows(Row(t, oid), w.row, Of(t.journal, oid), e);
      }
    }
  }

  // Two entries of the same object and revision are the same entry.
  lemma RevisionsAreUnique(t: Tables, i: nat, k: nat)
    requires JournalInv(t) && i < |t.journal| && k < |t.journal|
    requires t.journal[i].oid == t.journal[k].oid && t.journal[i].rev == t.journal[k].rev
    ensures i == k
  {
    var o := t.journal[i].oid;
    OfMembers(t.journal, o);
    var es := Of(t.journal, o);
    assert t.journal[i] in es && t.journal[k] in es;
  }

  // Every revision of a stored object is in the journal.
  lemma RevisionsAreComplete(t: Tables, o: Id, r: nat)
    requires JournalInv(t) && o in t.objects && 1 <= r <= t.objects[o].rev
    ensures exists i :: 0 <= i < |t.journal| && t.journal[i].oid == o && t.journal[i].rev == r
  {
    OfMembers(t.journal, o);
    var e := Of(t.journal, o)[r - 1];
    assert e in Of(t.journal, o);
    var i :| 0 <= i < |t.journal| && t.journal[i] == e;
  }

  // A tombstone is never written again, by any item of any caller.
  lemma TombstoneIsFrozen(t: Tables, dev: Caller, key: string, inp: Input, o: Id)
    requires o in t.objects && t.objects[o].deleted
    ensures var t' := ApplyOne(t, dev, key, inp).0; o in t'.objects && t'.objects[o] == t.objects[o]
  {
    DecisionsAreValid(t, dev, inp);
  }

  lemma {:induction false} TombstoneSurvivesBatch(t: Tables, dev: Caller, key: string, items: seq<Input>, o: Id)
    requires o in t.objects && t.objects[o].deleted
    ensures var t' := ApplyAll(t, dev, key, items).0; o in t'.objects && t'.objects[o] == t.objects[o]
    decreases |items|
  {
    if items != [] {
      TombstoneSurvivesBatch(t, dev, key, items[..|items| - 1], o);
      TombstoneIsFrozen(ApplyAll(t, dev, key, items[..|items| - 1]).0, dev, key, items[|items| - 1], o);
    }
  }

  // No lost updates: an effective write without force read the revision it
  // replaces, and the entry it adds is the only one that ever made the next.
  lemma UnforcedWriteIsNext(t: Tables, dev: Caller, key: string, inp: Input)
    requires JournalInv(t) && !inp.force && inp.op != Create && Decide(t, dev, inp).write.Some?
    ensures inp.oid in t.objects && t.objects[inp.oid].rev == inp.base
    ensures var (t', r) := ApplyOne(t, dev, key, inp);
      && r.status == Ok && r.rev == inp.base + 1
      && forall i :: 0 <= i < |t'.journal| && t'.journal[i].oid == inp.oid && t'.journal[i].rev == inp.base + 1 ==>
           i == |t.journal| && t'.journal[i].seqNo == r.seqNo && t'.journal[i].dev == dev.id && t'.journal[i].key == key
  {
    hide Decide, ValidWrite;
    DecisionsAreValid(t, dev, inp);
    UnforcedReadsBase(t, dev, inp);
    var d := Decide(t, dev, inp);
    var t1 := t.(blobRefs := d.refs);
    var t' := Perform(t, dev.id, key, inp.oid, d);
    EffectiveKeepsJournal(t, dev, key, inp);
    assert t'.journal == t.journal + [t'.journal[|t.journal|]];
    assert t'.journal[|t.journal|].oid == inp.oid && t'.journal[|t.journal|].rev == inp.base + 1;
    forall i | 0 <= i < |t'.journal| && t'.journal[i].oid == inp.oid && t'.journal[i].rev == inp.base + 1
      ensures i == |t.journal|
    {
      RevisionsAreUnique(t', i, |t.journal|);
    }
  }

  lemma UnforcedReadsBase(t: Tables, dev: Caller, inp: Input)
    requires !inp.force && inp.op != Create && Decide(t, dev, inp).write.Some?
    ensures inp.oid in t.objects && t.objects[inp.oid].rev == inp.base
    ensures Decide(t, dev, inp).write.value.row.rev == inp.base + 1
  {
    hide GateError, CheckUpdate, NewCharge, StoredSize, MetaOf;
  }

  // Once an object has moved past a base, every unforced write on that base
  // is turned away, whoever sends it.
  lemma StaleBaseNeverWrites(t: Tables, dev: Caller, inp: Input)
    requires inp.oid in t.objects && t.objects[inp.oid].rev > inp.base && !inp.force
    ensures Decide(t, dev, inp).write.None?
  {
    if inp.op != Create && Decide(t, dev, inp).write.Some? { UnforcedReadsBase(t, dev, inp); }
    if inp.op == Create { DecisionsAreValid(t, dev, inp); }
  }

  // A whole item, effective or not, keeps the chain.
  lemma EffectiveKeepsJournal(t: Tables, dev: Caller, key: string, inp: Input)
    requires JournalInv(t)
    ensures JournalInv(ApplyOne(t, dev, key, inp).0)
  {
    hide Decide;
    DecisionsAreValid(t, dev, inp);
    var d := Decide(t, dev, inp);
    var t1 := t.(blobRefs := d.refs);
    if d.write.Some? {
      SameWrite(t, t1, inp.oid, d.write.value);
      PutKeepsJournal(t1, inp.oid, d.write.value, dev.id, key);
    }
  }
}
