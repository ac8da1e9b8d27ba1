// The engine and its tables, updated in place the way the transactions do.

module Store {
  import opened Wrappers
  import opened Model
  import opened Access
  import opened PushSpec
  import opened Sums
  import opened Writes
  import opened Refs
  import opened Chain
  import opened Quota
  import opened Idempotency
  import opened Gc
  import opened Forest
  import opened Changes
  import Server
  import opened Tree

  function Count(refs: map<Hash, nat>, h: Hash): nat { if h in refs then refs[h] else 0 }

  function Bump(refs: map<Hash, nat>, h: Hash): map<Hash, nat> { refs[h := Count(refs, h) + 1] }

  // MetadataBlobIDs: the named hashes, each once.
  method MetadataBlobIDs(m: Meta) returns (out: seq<Hash>)
    ensures out == AllBlobs(m)
    ensures (forall h :: h in out <==> h in Extra(m)) && forall i, k :: 0 <= i < k < |out| ==> out[i] != out[k]
  {
    out := [];
    var seen := {};
    for i := 0 to |m.named|
      invariant out == Distinct(m.named[..i])
      invariant forall h :: h in seen <==> h in out
    {
      assert m.named[..i + 1][..i] == m.named[..i];
      if m.named[i] !in seen {
        seen := seen + {m.named[i]};
        out := out + [m.named[i]];
      }
    }
    assert m.named[..|m.named|] == m.named;
  }

  // newExtraBlobs: the hashes of the new metadata that the old lacks.
  method NewExtraBlobs(prev: Meta, m: Meta) returns (out: seq<Hash>)
    ensures out == NewBlobs(prev, m)
  {
    var had := MetadataBlobIDs(prev);
    var list := MetadataBlobIDs(m);
    out := [];
    for i := 0 to |list|
      invariant out == NewOnly(list[..i], Extra(prev))
    {
      assert list[..i + 1][..i] == list[..i];
      assert list[i] in had <==> list[i] in Extra(prev);
      if list[i] !in had { out := out + [list[i]]; }
    }
    assert list[..|list|] == list;
  }

  ghost function Elems(s: seq<Hash>): set<Hash> { set h | h in s }

  lemma ElemsStep(s: seq<Hash>, i: nat)
    requires i < |s| && forall a, b :: 0 <= a < b < |s| ==> s[a] != s[b]
    ensures Elems(s[..i + 1]) == Elems(s[..i]) + {s[i]} && s[i] !in Elems(s[..i])
  {
    assert s[..i + 1] == s[..i] + [s[i]];
  }

  lemma ElemsAll(s: seq<Hash>)
    ensures Elems(s[..|s|]) == Elems(s)
  {
    assert s[..|s|] == s;
  }

  lemma AdjustNothing(b: map<Hash, Blob>)
    ensures AdjustExtra(b, {}, {}) == b
  {}

  lemma AdjustDown(b: map<Hash, Blob>, gone: set<Hash>, h: Hash)
    requires h !in gone && h != ""
    ensures Dec(AdjustExtra(b, gone, {}), h) == AdjustExtra(b, gone + {h}, {})
  {}

  lemma AdjustUp(b: map<Hash, Blob>, gone: set<Hash>, came: set<Hash>, h: Hash)
    requires h !in gone && h !in came && h != ""
    ensures Inc(AdjustExtra(b, gone, came), h) == AdjustExtra(b, gone, came + {h})
  {}

  lemma AdjustAsDifference(b: map<Hash, Blob>, prev: set<Hash>, neu: set<Hash>)
    ensures AdjustExtra(b, prev - neu, neu - prev) == AdjustExtra(b, prev, neu)
  {}

  class Engine {
    var objects: map<Id, Object>
    var journal: seq<Entry>
    var lastSeq: nat
    var blobs: map<Hash, Blob>
    var files: set<Hash>
    var blobRefs: set<(Id, Hash)>
    var collections: map<Id, Collection>
    var shares: map<ShareKey, bool>
    var members: set<(Id, Id)>
    var users: map<Id, User>
    var devices: map<Id, DeviceRow>
    var acks: map<Id, nat>
    var idem: map<string, IdemRow>
    const maxBlob: int

    function View(): Tables
      reads this
    {
      Tables(objects, journal, lastSeq, blobs, files, blobRefs, collections, shares, members, users, devices, acks, idem, maxBlob)
    }

    constructor (max: int)
      ensures View() == Server.Empty(max)
    {
      objects, journal, lastSeq, blobs, files, blobRefs := map[], [], 0, map[], {}, {};
      collections, shares, members, users, devices, acks, idem := map[], map[], {}, map[], map[], map[], map[];
      maxBlob := max;
    }

    // ---- blob references ----------------------------------------------------

    method IncBlobRef(h: Hash) returns (ok: bool)
      modifies `blobs
      ensures ok <==> h == "" || h in old(blobs)
      ensures blobs == Inc(old(blobs), h)
    {
      if h == "" { return true; }
      if h in blobs { blobs := blobs[h := Blob(blobs[h].size, blobs[h].refcount + 1)]; }
      ok := h in blobs;
    }

    method DecBlobRef(h: Hash)
      modifies `blobs
      ensures blobs == Dec(old(blobs), h)
    {
      if h == "" { return; }
      if h in blobs {
        var n := blobs[h].refcount - 1;
        blobs := blobs[h := Blob(blobs[h].size, if n > 0 then n else 0)];
      }
    }

    method AddBlobRef(user: Id, h: Hash)
      modifies `blobRefs
      ensures blobRefs == AddRef(old(blobRefs), user, h)
    {
      if user == "" || h == "" { return; }
      blobRefs := blobRefs + {(user, h)};
    }

    method EnsureBlob(dev: Caller, owner: Id, h: Hash, contentHash: Hash) returns (err: PushError)
      modifies `blobRefs
      ensures err == BlobError(old(View()), old(blobRefs), dev, h, contentHash)
      ensures blobRefs == if err == NoError then AddRef(old(blobRefs), owner, h) else old(blobRefs)
    {
      if h !in blobs || h !in files { return BlobMissing; }
      if contentHash != "" && contentHash != h { return ContentHashMismatch; }
      if !dev.System() {
        if (dev.user, h) !in blobRefs { return BlobMissing; }
      }
      AddBlobRef(owner, h);
      err := NoError;
    }

    method EnsureExtraBlobs(dev: Caller, owner: Id, list: seq<Hash>) returns (err: PushError)
      modifies `blobRefs
      ensures (blobRefs, err) == EnsureAll(old(View()), old(blobRefs), dev, owner, list)
    {
      ghost var t := View();
      for i := 0 to |list|
        invariant View() == t.(blobRefs := blobRefs)
        invariant EnsureAll(t, t.blobRefs, dev, owner, list) == EnsureAll(t, blobRefs, dev, owner, list[i..])
      {
        ghost var refs := blobRefs;
        err := EnsureBlob(dev, owner, list[i], "");
        assert err == BlobError(t, refs, dev, list[i], "");
        assert list[i..][0] == list[i] && list[i..][1..] == list[i + 1..];
        if err != NoError { return; }
      }
      err := NoError;
    }

    // The blobs only the old metadata names lose a reference, those only the
    // new one names gain one.
    method AdjustExtraBlobRefs(prev: Meta, m: Meta) returns (ok: bool)
      modifies `blobs
      ensures ok <==> Extra(m) - Extra(prev) <= old(blobs).Keys
      ensures ok ==> blobs == AdjustExtra(old(blobs), Extra(prev), Extra(m))
    {
      var oldIDs := MetadataBlobIDs(prev);
      var newIDs := MetadataBlobIDs(m);
      ghost var b0 := blobs;
      ghost var gone: set<Hash> := {};
      AdjustNothing(b0);
      for i := 0 to |oldIDs|
        invariant gone == Elems(oldIDs[..i]) - Extra(m)
        invariant blobs == AdjustExtra(b0, gone, {})
      {
        ElemsStep(oldIDs, i);
        if oldIDs[i] !in newIDs {
          AdjustDown(b0, gone, oldIDs[i]);
          DecBlobRef(oldIDs[i]);
          gone := gone + {oldIDs[i]};
        }
      }
      ElemsAll(oldIDs);
      assert gone == Extra(prev) - Extra(m);
      ghost var came: set<Hash> := {};
      for i := 0 to |newIDs|
        invariant came == Elems(newIDs[..i]) - Extra(prev)
        invariant came <= b0.Keys
        invariant blobs == AdjustExtra(b0, gone, came)
      {
        ElemsStep(newIDs, i);
        if newIDs[i] !in oldIDs {
          AdjustUp(b0, gone, came, newIDs[i]);
          ok := IncBlobRef(newIDs[i]);
          if !ok { assert newIDs[i] in Extra(m) - Extra(prev); return; }
          came := came + {newIDs[i]};
        }
      }
      ElemsAll(newIDs);
      assert came == Extra(m) - Extra(prev);
      AdjustAsDifference(b0, Extra(prev), Extra(m));
      ok := true;
    }

    // ---- quota ----------------------------------------------------------------

    // What the item costs its owner, from the blobs as stored.
    method Charge(inp: Input) returns (size: int, charged: int, err: PushError)
      ensures err == ChargeError(View(), inp)
      ensures err == NoError ==> size == StoredSize(View(), inp) && charged == Cost(blobs, size, inp.blob, MetaOf(inp))
    {
      hide AllBlobs, BlobSize;
      var m := MetaOf(inp);
      size, charged := inp.size, 0;
      if m.size > MAX_METADATA_BYTES { return size, 0, MetadataTooLarge; }
      if inp.blob != "" {
        size := BlobSize(blobs, inp.blob);
      } else if inp.size < 0 || inp.size > maxBlob {
        return size, 0, InvalidSize;
      }
      charged := size + m.size;
      var seen := {inp.blob};
      var list := MetadataBlobIDs(m);
      for i := 0 to |list|
        invariant seen == {inp.blob} + Elems(list[..i])
        invariant charged == size + m.size + ExtraCost(blobs, seen - {inp.blob})
      {
        ElemsStep(list, i);
        if list[i] !in seen {
          ExtraCostGrows(blobs, seen - {inp.blob}, list[i]);
          assert seen + {list[i]} - {inp.blob} == (seen - {inp.blob}) + {list[i]};
          seen := seen + {list[i]};
          charged := charged + BlobSize(blobs, list[i]);
        }
      }
      ElemsAll(list);
      assert seen - {inp.blob} == Extra(m) - {inp.blob};
      err := NoError;
    }

    method OwnerUsage(owner: Id) returns (used: int)
      ensures used == Usage(View(), owner)
    {
      used := 0;
      var rest := objects.Keys;
      ghost var m := Charges(View(), owner);
      PartAll(m);
      assert m.Keys == rest;
      while rest != {}
        invariant rest <= m.Keys && used == Sum(m) - Sum(Part(m, rest))
        decreases rest
      {
        var o :| o in rest;
        PartStep(m, rest, o);
        if CountsFor(collections, owner, objects[o]) { used := used + objects[o].charged; }
        rest := rest - {o};
      }
      PartNone(m);
    }

    method QuotaOk(owner: Id, delta: int) returns (ok: bool)
      ensures ok <==> QuotaAllows(View(), owner, delta)
      ensures ok <==> owner == "" || delta <= 0 || owner !in users || users[owner].quota <= 0 || Usage(View(), owner) + delta <= users[owner].quota
    {
      if owner == "" || delta <= 0 { return true; }
      if owner !in users { return true; }
      var quota := users[owner].quota;
      if quota <= 0 { return true; }
      var used := OwnerUsage(owner);
      ok := used <= quota && delta <= quota - used;
    }

    // ---- one item -----------------------------------------------------------

    method InsertJournal(oid: Id, col: Id, op: Op, rev: nat, hash: Hash, metaHash: Hash, dev: Id, key: string) returns (n: nat)
      modifies `journal, `lastSeq
      ensures n == lastSeq == old(lastSeq) + 1
      ensures journal == old(journal) + [Entry(n, oid, col, op, rev, hash, metaHash, dev, key)]
    {
      lastSeq := lastSeq + 1;
      n := lastSeq;
      journal := journal + [Entry(n, oid, col, op, rev, hash, metaHash, dev, key)];
    }

    // The checks creates and updates share; t is the state before the item.
    method CheckContent(dev: Caller, inp: Input, list: seq<Hash>, oldCharge: int, ghost t: Tables) returns (err: PushError, size: int, charged: int)
      requires inp.col in collections && View() == t.(blobRefs := blobRefs)
      modifies `blobRefs
      ensures (blobRefs, err) == CheckRest(t, old(blobRefs), dev, inp, list, oldCharge)
      ensures err == NoError ==> size == StoredSize(t, inp) && charged == NewCharge(t, inp)
    {
      ghost var t0 := View();
      var owner := collections[inp.col].owner;
      RestIgnoresRefs(t, t0, blobRefs, dev, inp, list, oldCharge);
      err := EnsureExtraBlobs(dev, owner, list);
      size, charged := 0, 0;
      if err != NoError { return; }
      ChargeIgnoresRefs(t0, View(), inp);
      QuotaIgnoresRefs(t0, View(), owner);
      size, charged, err := Charge(inp);
      if err != NoError { return; }
      var allowed := QuotaOk(owner, charged - oldCharge);
      if !allowed { err := QuotaExceeded; }
    }

    method AttachBlob(dev: Caller, owner: Id, inp: Input) returns (err: PushError)
      modifies `blobRefs
      ensures (blobRefs, err) == AttachNew(old(View()), dev, owner, inp)
    {
      err := NoError;
      if inp.blob != "" { err := EnsureBlob(dev, owner, inp.blob, inp.hash); }
    }

    method AttachBlobIfChanged(dev: Caller, owner: Id, inp: Input, obj: Object) returns (err: PushError)
      modifies `blobRefs
      ensures (blobRefs, err) == AttachChanged(old(View()), dev, owner, inp, obj)
    {
      hide AttachNew;
      err := NoError;
      if inp.blob != "" && inp.blob != obj.blob {
        err := AttachBlob(dev, owner, inp);
      } else if inp.blob != "" && inp.hash != "" && inp.hash != inp.blob {
        err := ContentHashMismatch;
      }
    }

    method CreateChecks(dev: Caller, inp: Input) returns (err: PushError, size: int, charged: int)
      requires inp.col in collections
      modifies `blobRefs
      ensures (blobRefs, err) == CheckCreate(old(View()), dev, inp)
      ensures err == NoError ==> size == StoredSize(old(View()), inp) && charged == NewCharge(old(View()), inp)
    {
      hide CheckRest, StoredSize, NewCharge, MetaOf, AllBlobs, Extra, AttachNew;
      ghost var t := View();
      size, charged := 0, 0;
      err := AttachBlob(dev, collections[inp.col].owner, inp);
      if err == NoError {
        var list := MetadataBlobIDs(MetaOf(inp));
        err, size, charged := CheckContent(dev, inp, list, 0, t);
      }
    }

    method UpdateChecks(dev: Caller, inp: Input, obj: Object) returns (err: PushError, size: int, charged: int)
      requires inp.col in collections
      modifies `blobRefs
      ensures (blobRefs, err) == CheckUpdate(old(View()), dev, inp, obj)
      ensures err == NoError ==> size == StoredSize(old(View()), inp) && charged == NewCharge(old(View()), inp)
    {
      hide CheckRest, StoredSize, NewCharge, MetaOf, NewBlobs, AttachChanged;
      ghost var t := View();
      size, charged := 0, 0;
      err := AttachBlobIfChanged(dev, collections[inp.col].owner, inp, obj);
      if err == NoError {
        var list := NewExtraBlobs(obj.meta, MetaOf(inp));
        err, size, charged := CheckContent(dev, inp, list, obj.charged, t);
      }
    }

    // The references move from the row before to the row after.
    method MoveBlobRefs(prevBlob: Hash, prevMeta: Meta, newBlob: Hash, newMeta: Meta) returns (ok: bool)
      modifies `blobs
      ensures ok <==> (prevBlob == newBlob || newBlob == "" || newBlob in old(blobs)) && Extra(newMeta) - Extra(prevMeta) <= old(blobs).Keys
      ensures ok ==> blobs == AdjustExtra(if prevBlob != newBlob then Inc(Dec(old(blobs), prevBlob), newBlob) else old(blobs),
                                          Extra(prevMeta), Extra(newMeta))
    {
      hide AdjustExtra, Inc, Dec, Extra;
      KeysAsBefore(blobs, prevBlob, newBlob);
      ok := true;
      if prevBlob != newBlob {
        DecBlobRef(prevBlob);
        ok := IncBlobRef(newBlob);
      }
      if ok { ok := AdjustExtraBlobRefs(prevMeta, newMeta); }
    }

    // The row, the counts of the blobs it stops and starts using, and the
    // journal entry.
    method WriteRow(oid: Id, row: Object, col: Id, op: Op, dev: Id, key: string) returns (n: nat, ok: bool)
      requires oid in objects ==> !objects[oid].deleted
      modifies `objects, `journal, `lastSeq, `blobs
      ensures ok <==> (LiveBlob(Row(old(View()), oid)) == LiveBlob(Some(row)) || LiveBlob(Some(row)) == "" || LiveBlob(Some(row)) in old(blobs))
                      && LiveExtra(Some(row)) - LiveExtra(Row(old(View()), oid)) <= old(blobs).Keys
      ensures ok ==> n == lastSeq && View() == Put(old(View()), oid, RowWrite(row, col, op), dev, key)
    {
      hide AdjustExtra, Inc, Dec, MoveRefs, LiveBlob, LiveExtra, Extra, EmptyMeta;
      var prevBlob, prevMeta := if oid in objects then objects[oid].blob else "", if oid in objects then objects[oid].meta else EmptyMeta();
      var newBlob, newMeta := if row.deleted then "" else row.blob, if row.deleted then EmptyMeta() else row.meta;
      MovesAs(blobs, Row(View(), oid), row, prevBlob, prevMeta, newBlob, newMeta);
      objects := objects[oid := row];
      ok := MoveBlobRefs(prevBlob, prevMeta, newBlob, newMeta);
      n := 0;
      if ok { n := InsertJournal(oid, col, op, row.rev, row.hash, row.metaHash, dev, key); }
    }

    method ApplyCreate(dev: Caller, key: string, inp: Input) returns (r: PushResult, ok: bool)
      requires inp.col in collections && inp.oid !in objects
      modifies `objects, `journal, `lastSeq, `blobs, `blobRefs
      ensures ok && r == DecideCreate(old(View()), dev, inp).result
      ensures View() == Perform(old(View()), dev.id, key, inp.oid, DecideCreate(old(View()), dev, inp))
    {
      hide MoveRefs, NewRow;
      ghost var t := View();
      CheckedCreate(t, dev, inp);
      hide CheckCreate, StoredSize, NewCharge, Extra, Cost, QuotaAllows, BlobSize;
      var err, size, charged := CreateChecks(dev, inp);
      if err != NoError { return Rejected(inp, err), true; }
      var row := NewRow(dev, inp, size, charged);
      assert row == CreatedRow(t, dev, inp);
      hide CreatedRow;
      var n;
      n, ok := WriteRow(inp.oid, row, inp.col, Create, dev.id, key);
      r := PushResult(inp.oid, Ok, 1, n, 0, "", NoError);
    }

    method ApplyUpdate(dev: Caller, key: string, inp: Input) returns (r: PushResult, ok: bool)
      requires inp.col in collections && inp.oid in objects
      modifies `objects, `journal, `lastSeq, `blobs, `blobRefs
      ensures ok && r == DecideUpdate(old(View()), dev, inp).result
      ensures View() == Perform(old(View()), dev.id, key, inp.oid, DecideUpdate(old(View()), dev, inp))
    {
      hide CheckUpdate, StoredSize, MetaOf, MoveRefs;
      ghost var t := View();
      CheckedUpdate(t, dev, inp, objects[inp.oid]);
      hide NewCharge, Extra, Cost, QuotaAllows, BlobSize;
      var obj := objects[inp.oid];
      if obj.deleted { return Conflicted(inp, obj), true; }
      if obj.rev != inp.base && !inp.force { return Conflicted(inp, obj), true; }
      var err, size, charged := UpdateChecks(dev, inp, obj);
      if err != NoError { return Rejected(inp, err), true; }
      var m := MetaOf(inp);
      var row := Object(inp.col, obj.kind, obj.rev + 1, inp.hash, m.hash, inp.blob, size, charged, dev.id, m, false);
      assert row == UpdatedRow(t, dev, inp, obj);
      hide UpdatedRow;
      var n;
      n, ok := WriteRow(inp.oid, row, inp.col, Update, dev.id, key);
      r := PushResult(inp.oid, Ok, row.rev, n, 0, "", NoError);
    }

    method ApplyDelete(dev: Caller, key: string, inp: Input) returns (r: PushResult, ok: bool)
      requires inp.oid in objects
      modifies `objects, `journal, `lastSeq, `blobs
      ensures ok && r == DecideDelete(old(View()), dev, inp).result
      ensures View() == Perform(old(View()), dev.id, key, inp.oid, DecideDelete(old(View()), dev, inp))
    {
      hide MoveRefs, Extra;
      var obj := objects[inp.oid];
      if obj.deleted { return PushResult(inp.oid, Ok, obj.rev, 0, 0, "", NoError), true; }
      if obj.rev != inp.base && !inp.force { return Conflicted(inp, obj), true; }
      var row := obj.(rev := obj.rev + 1, deleted := true, origin := dev.id);
      var n;
      n, ok := WriteRow(inp.oid, row, inp.col, Delete, dev.id, key);
      r := PushResult(inp.oid, Ok, row.rev, n, 0, "", NoError);
    }

    // applyOne. An unknown blob in the last step would fail the transaction;
    // it never does (ok).
    method ApplyItem(dev: Caller, key: string, inp: Input) returns (r: PushResult, ok: bool)
      modifies `objects, `journal, `lastSeq, `blobs, `blobRefs
      ensures ok && (View(), r) == ApplyOne(old(View()), dev, key, inp)
    {
      hide DecideCreate, DecideUpdate, MoveRefs, AccessFor, ValidId, MirrorReadOnly;
      ghost var t := View();
      assert t.(blobRefs := t.blobRefs) == t;
      var e := GateError(View(), dev, inp);
      if e != NoError { return Rejected(inp, e), true; }
      match inp.op {
        case Create =>
          if inp.oid in objects {
            ExistingId(t, dev, inp);
            var obj := objects[inp.oid];
            if Rank(AccessFor(View(), dev, obj.col)) < Rank(Read) { return Rejected(inp, ObjectIdInUse), true; }
            return Conflicted(inp, obj), true;
          }
          r, ok := ApplyCreate(dev, key, inp);
        case Update =>
          if inp.oid !in objects { MissingId(t, dev, inp); return Rejected(inp, NotFound), true; }
          r, ok := ApplyUpdate(dev, key, inp);
        case Delete =>
          if inp.oid !in objects { return Rejected(inp, NotFound), true; }
          r, ok := ApplyDelete(dev, key, inp);
      }
    }

    // ---- push ------------------------------------------------------------------

    method LoadIdempotent(dev: Caller, key: string) returns (r: Option<PushReply>)
      ensures r == Cached(View(), dev, key)
    {
      if key !in idem { return None; }
      var row := idem[key];
      if row.dev != dev.id { return Some(KeyReused); }
      r := Some(Replied(row.results));
    }

    method ApplyBatch(dev: Caller, key: string, items: seq<Input>) returns (results: seq<PushResult>)
      modifies `objects, `journal, `lastSeq, `blobs, `blobRefs
      ensures (View(), results) == ApplyAll(old(View()), dev, key, items)
    {
      hide ApplyOne;
      ghost var t := View();
      results := [];
      for i := 0 to |items|
        invariant (View(), results) == ApplyAll(t, dev, key, items[..i])
      {
        assert items[..i + 1][..i] == items[..i];
        var r, ok := ApplyItem(dev, key, items[i]);
        results := results + [r];
      }
      assert items[..|items|] == items;
    }

    // The write transaction, rolled back when the key was taken meanwhile.
    method CommitBatch(dev: Caller, key: string, items: seq<Input>) returns (reply: PushReply)
      modifies `objects, `journal, `lastSeq, `blobs, `blobRefs, `idem
      ensures (View(), reply) == Commit(old(View()), dev, key, items)
    {
      hide ApplyAll;
      ghost var t := View();
      var objects0, journal0, lastSeq0, blobs0, blobRefs0 := objects, journal, lastSeq, blobs, blobRefs;
      var results := ApplyBatch(dev, key, items);
      assert idem == t.idem;
      if key in idem {
        objects, journal, lastSeq, blobs, blobRefs := objects0, journal0, lastSeq0, blobs0, blobRefs0;
        assert View() == t;
        var cached := LoadIdempotent(dev, key);
        reply := cached.value;
      } else {
        idem := idem[key := IdemRow(dev.id, results)];
        reply := Replied(results);
      }
    }

    method PushItems(dev: Caller, k: string, items: seq<Input>) returns (reply: PushReply)
      modifies `objects, `journal, `lastSeq, `blobs, `blobRefs, `idem
      ensures (View(), reply) == Push(old(View()), dev, k, items)
    {
      hide Commit;
      if items == [] { return BadBatch; }
      if |items| > MAX_BATCH { return BadBatch; }
      if k == "" { return KeyRequired; }
      var key := ScopedKey(dev, k);
      var cached := LoadIdempotent(dev, key);
      if cached.Some? { return cached.value; }
      reply := CommitBatch(dev, key, items);
    }

    // ---- changes and acks ---------------------------------------------------------

    // The rows of the feed query, at most one more than the page holds, and
    // which of them have moved to another collection since.
    method QueryRows(sc: Scope, since: int, limit: nat, col: Id) returns (changes: seq<Change>, moved: map<int, Id>, ghost rows: seq<Change>)
      ensures rows <= Rows(View(), journal, sc, since, col)
      ensures |rows| <= limit || |rows| == limit + 1
      ensures |rows| <= limit ==> rows == Rows(View(), journal, sc, since, col)
      ensures Unmasked(View(), sc, changes, rows) && MovedRows(View(), changes, moved)
    {
      hide Visible, Masked, Unmasked, MovedRows;
      changes, moved, rows := [], map[], [];
      NoRows(View(), sc);
      var i := 0;
      while i < |journal| && |changes| < limit + 1
        invariant 0 <= i <= |journal| && |changes| <= limit + 1 && |changes| == |rows|
        invariant rows == Rows(View(), journal[..i], sc, since, col)
        invariant Unmasked(View(), sc, changes, rows) && MovedRows(View(), changes, moved)
      {
        var e := journal[i];
        assert journal[..i + 1][..i] == journal[..i];
        if Selected(View(), sc, since, col, e) {
          var c := Joined(View(), e);
          RowAdded(View(), sc, changes, moved, rows, c);
          if objects[e.oid].col != c.col { moved := moved[|changes| := objects[e.oid].col]; }
          changes := changes + [c];
          rows := rows + [Masked(View(), sc, c)];
        }
        i := i + 1;
      }
      RowsPrefix(View(), journal, i, sc, since, col);
      assert i == |journal| ==> journal[..i] == journal;
    }

    // Rows that moved where a user cannot read them lose their data; each
    // collection is looked up once.
    method MaskMoved(user: Id, raw: seq<Change>, moved: map<int, Id>) returns (changes: seq<Change>)
      requires MovedRows(View(), raw, moved)
      ensures |changes| == |raw| && forall k :: 0 <= k < |raw| ==> changes[k] == Masked(View(), UserScope(user), raw[k])
    {
      hide AccessQ;
      var visible: map<Id, bool> := map[];
      changes := raw;
      for k := 0 to |raw|
        invariant |changes| == |raw|
        invariant forall c :: c in visible ==> visible[c] == (Rank(AccessQ(View(), user, c)) >= Rank(Read))
        invariant forall m :: 0 <= m < |raw| ==> changes[m] == if m < k then Masked(View(), UserScope(user), raw[m]) else raw[m]
      {
        if k in moved {
          var colID := moved[k];
          if colID !in visible {
            var acc := AccessQ(View(), user, colID);
            visible := visible[colID := Rank(acc) >= Rank(Read)];
          }
          if !visible[colID] {
            changes := changes[k := changes[k].(op := Delete, deleted := true, meta := None, blob := "", size := 0)];
          }
        }
      }
    }

    method CutPage(rows: seq<Change>, since: int, limit: nat) returns (p: Page)
      ensures p == Cut(rows, since, limit)
    {
      var changes := rows;
      var next := since;
      var hasMore := false;
      if |changes| > limit {
        changes := changes[..limit];
        hasMore := true;
      }
      if |changes| > 0 { next := changes[|changes| - 1].seqNo; }
      p := Page(changes, next, hasMore, false);
    }

    method ReadChanges(sc: Scope, since: int, limit0: int, col: Id) returns (p: Page)
      ensures p == GetChanges(View(), sc, since, limit0, col)
    {
      hide Rows, AccessQ, Cut;
      var head := HeadSeq(journal);
      if since > head { return Page([], head, false, true); }
      var limit := limit0;
      if limit <= 0 { limit := 200; }
      if limit > 500 { limit := 500; }
      var changes, moved;
      ghost var rows;
      changes, moved, rows := QueryRows(sc, since, limit, col);
      if sc.UserScope? && moved != map[] {
        changes := MaskMoved(sc.user, changes, moved);
      } else {
        forall k | 0 <= k < |changes| ensures changes[k] == rows[k] { assert k !in moved || sc.All?; }
      }
      hide Masked;
      assert changes == rows;
      p := CutPage(changes, since, limit);
      CutNeedsOneMore(rows, Rows(View(), journal, sc, since, col), since, limit);
    }

    method AckSeq(d: Id, n: int) returns (ok: bool)
      modifies `acks
      ensures ok <==> !Server.AckError(old(View()), n)
      ensures View() == Server.Ack(old(View()), d, n)
    {
      var head := HeadSeq(journal);
      if n < 0 || n > head { return false; }
      if d in acks && n < acks[d] { return true; }
      acks := acks[d := n];
      ok := true;
    }

    // ---- garbage collection and repair -----------------------------------------------

    method LiveBlobRefs() returns (refs: map<Hash, nat>)
      ensures forall h :: h != "" ==> Count(refs, h) == Recount(objects, h)
    {
      hide Recount, AllBlobs;
      refs := map[];
      var rest := objects.Keys;
      ghost var done: map<Id, Object> := map[];
      NoUses();
      while rest != {}
        invariant rest <= objects.Keys && done == map o | o in objects && o !in rest :: objects[o]
        invariant forall h :: h != "" ==> Count(refs, h) == Recount(done, h)
        decreases rest
      {
        var o :| o in rest;
        var row := objects[o];
        ghost var before := refs;
        if !row.deleted {
          if row.blob != "" { refs := Bump(refs, row.blob); }
          var extra := MetadataBlobIDs(row.meta);
          ghost var mid := refs;
          for i := 0 to |extra|
            invariant forall h :: Count(refs, h) == Count(mid, h) + if h in Elems(extra[..i]) then 1 else 0
          {
            ElemsStep(extra, i);
            refs := Bump(refs, extra[i]);
          }
          ElemsAll(extra);
          assert Elems(extra) == Extra(row.meta);
        }
        forall h | h != "" ensures Count(refs, h) == Recount(done[o := row], h) {
          RecountPut(done, o, row, h);
          assert Count(refs, h) == Count(before, h) + Uses(row, h);
        }
        rest := rest - {o};
        done := done[o := row];
      }
      assert done == objects;
    }

    method MinSyncAck() returns (least: nat)
      ensures SyncDevices(View()) == {} ==> least == HeadSeq(journal)
      ensures SyncDevices(View()) != {} ==> exists d :: d in SyncDevices(View()) && Acked(View(), d) == least
      ensures forall d :: d in SyncDevices(View()) ==> least <= Acked(View(), d)
    {
      var ids := set d | d in devices.Keys && devices[d].sync && !devices[d].revoked;
      assert ids == SyncDevices(View());
      if ids == {} { return HeadSeq(journal); }
      least := 0;
      var first := true;
      var rest := ids;
      while rest != {}
        invariant rest <= ids && (first <==> rest == ids)
        invariant !first ==> exists d :: d in ids - rest && Acked(View(), d) == least
        invariant forall d :: d in ids - rest ==> least <= Acked(View(), d)
        decreases rest
      {
        var d :| d in rest;
        var ack := if d in acks then acks[d] else 0;
        assert d in ids - (rest - {d});
        if first || ack < least {
          least := ack;
        } else {
          var w :| w in ids - rest && Acked(View(), w) == least;
          assert w in ids - (rest - {d});
        }
        first := false;
        rest := rest - {d};
      }
    }

    method CompactableTombstones(least: nat) returns (out: set<Id>)
      ensures out == set o | o in objects && objects[o].deleted && Of(journal, o) != [] && LastSeq(journal, o) <= least
    {
      out := {};
      var rest := objects.Keys;
      while rest != {}
        invariant rest <= objects.Keys
        invariant out == set o | o in objects && o !in rest && objects[o].deleted && Of(journal, o) != [] && LastSeq(journal, o) <= least
        decreases rest
      {
        var o :| o in rest;
        if objects[o].deleted {
          var entries := Of(journal, o);
          if entries != [] && HeadSeq(entries) <= least { out := out + {o}; }
        }
        rest := rest - {o};
      }
    }

    method RemoveBlob(h: Hash)
      modifies `blobs, `files, `blobRefs
      ensures blobs == old(blobs) - {h} && files == old(files) - {h}
      ensures blobRefs == set r | r in old(blobRefs) && r.1 != h
    {
      files := files - {h};
      blobRefs := set r | r in blobRefs && r.1 != h;
      blobs := blobs - {h};
    }

    method DeleteTombstones(ids: set<Id>) returns (n: nat)
      requires forall o :: o in ids ==> o in objects && objects[o].deleted
      modifies `objects, `journal
      ensures objects == old(objects) - ids && journal == Without(old(journal), ids) && n == |ids|
    {
      n := 0;
      var rest := ids;
      WithoutNone(journal);
      assert ids - rest == {};
      while rest != {}
        invariant rest <= ids && n == |ids| - |rest|
        invariant objects == old(objects) - (ids - rest)
        invariant journal == Without(old(journal), ids - rest)
        decreases rest
      {
        var o :| o in rest;
        WithoutMore(old(journal), ids - rest, {o});
        assert (ids - rest) + {o} == ids - (rest - {o});
        journal := Without(journal, {o});
        if objects[o].deleted { objects := objects - {o}; }
        rest := rest - {o};
        n := n + 1;
      }
      assert ids - rest == ids;
    }

    // What Collect reports: the least ack, unused blobs, compactable tombstones.
    method FindGarbage() returns (least: nat, unused: set<Hash>, tombstones: set<Id>)
      requires "" !in blobs
      ensures unused == Unused(View()) && tombstones == Tombstones(View())
    {
      hide Recount, Compactable;
      least := MinSyncAck();
      tombstones := CompactableTombstones(least);
      LeastAckDecides(View(), least, tombstones);
      var live := LiveBlobRefs();
      unused := set h | h in blobs.Keys && Count(live, h) == 0;
    }

    method RemoveBlobs(unused: set<Hash>)
      modifies `blobs, `files, `blobRefs
      ensures blobs == old(blobs) - unused && files == old(files) - unused
      ensures blobRefs == set r | r in old(blobRefs) && r.1 !in unused
    {
      var rest := unused;
      assert unused - rest == {};
      while rest != {}
        invariant rest <= unused
        invariant blobs == old(blobs) - (unused - rest) && files == old(files) - (unused - rest)
        invariant blobRefs == set r | r in old(blobRefs) && r.1 !in unused - rest
        decreases rest
      {
        var h :| h in rest;
        RemoveBlob(h);
        rest := rest - {h};
      }
      assert unused - rest == unused;
    }

    // Collect: a report, and with apply the removal of what it lists.
    method CollectGarbage(apply: bool) returns (least: nat, unused: set<Hash>, tombstones: set<Id>)
      requires "" !in blobs
      modifies `objects, `journal, `blobs, `files, `blobRefs
      ensures unused == Unused(old(View())) && tombstones == Tombstones(old(View()))
      ensures View() == if apply then Collect(old(View())) else old(View())
    {
      hide Tombstones, Unused, Without;
      TombstonesAreDeleted(View());
      least, unused, tombstones := FindGarbage();
      if apply {
        RemoveBlobs(unused);
        var n := DeleteTombstones(tombstones);
      }
    }

    // RepairRefcounts: the number of rows it had to change.
    method RepairCounts() returns (n: nat)
      requires "" !in blobs
      modifies `blobs
      ensures View() == Repair(old(View()))
      ensures n == |set h | h in old(blobs) && old(blobs)[h].refcount != Recount(objects, h)|
    {
      hide Recount, Count, Repair;
      var live := LiveBlobRefs();
      n := 0;
      var rest := blobs.Keys;
      ghost var b0 := blobs;
      ghost var wrong: set<Hash> := {};
      while rest != {}
        invariant rest <= b0.Keys && blobs.Keys == b0.Keys && n == |wrong|
        invariant wrong <= b0.Keys - rest
        invariant forall h :: h in b0 && h !in rest ==> (h in wrong <==> b0[h].refcount != Recount(objects, h))
        invariant forall h :: h in b0 ==> blobs[h] == if h in rest then b0[h] else Blob(b0[h].size, Recount(objects, h))
        decreases rest
      {
        var h :| h in rest;
        var want := Count(live, h);
        if want != blobs[h].refcount {
          blobs := blobs[h := Blob(blobs[h].size, want)];
          n := n + 1;
          wrong := wrong + {h};
        }
        rest := rest - {h};
      }
      assert wrong == set h | h in b0 && b0[h].refcount != Recount(objects, h);
      RepairedBlobs(old(View()), blobs);
    }

    // ---- collections -------------------------------------------------------------------

    // True when id is maybeChild or above it, and when the walk cannot tell.
    method IsAncestor(id: Id, maybeChild: Id) returns (r: bool)
      requires "" !in collections
      ensures r <==> !ProvenlyOutside(collections, id, maybeChild)
    {
      var seen := {};
      var cur := maybeChild;
      ghost var n: nat := 0;
      while cur != ""
        invariant cur == Up(collections, maybeChild, n)
        invariant seen <= collections.Keys
        invariant forall x :: x in seen <==> exists i: nat :: i < n && Up(collections, maybeChild, i) == x
        invariant forall i: nat :: i < n ==> Up(collections, maybeChild, i) in collections - {id, ""}
        decreases collections.Keys - seen
      {
        if cur == id || cur in seen || cur !in collections {
          if cur in seen {
            ghost var i: nat :| i < n && Up(collections, maybeChild, i) == cur;
            RevisitNeverEnds(collections, id, maybeChild, i, n);
          } else {
            NoCleanChain(collections, id, maybeChild, n);
          }
          return true;
        }
        assert Up(collections, maybeChild, n + 1) == collections[cur].parent;
        seen := seen + {cur};
        cur := collections[cur].parent;
        n := n + 1;
      }
      assert CleanChain(collections, id, maybeChild, n);
      r := false;
    }

    // CreateCollection reads the parent: the owner and the root of the new row.
    method ParentOfNew(id: Id, owner: Id, kind: string, name: string, parent: Id) returns (err: ColError, rowOwner: Id, root: Id)
      ensures err == ReadCreate(collections, kind, name, parent)
      ensures err == NoColError ==> rowOwner == OwnerNow(collections, owner, parent) && root == RootNow(collections, id, parent)
    {
      err, rowOwner, root := NoColError, owner, id;
      if kind == "" || name == "" { return InvalidCollection, owner, id; }
      if parent != "" {
        if parent !in collections { return ColNotFound, owner, id; }
        if collections[parent].deleted { return ColNotFound, owner, id; }
        rowOwner, root := collections[parent].owner, collections[parent].root;
      }
    }

    // ... and inserts it, in a statement of its own.
    method InsertCollection(id: Id, owner: Id, kind: string, name: string, parent: Id, root: Id) returns (err: ColError)
      modifies `collections
      ensures err == InsertError(old(collections), owner, kind, name, parent)
      ensures collections == if err == NoColError then Insert(old(collections), id, owner, kind, name, parent, root) else old(collections)
    {
      hide NameTaken;
      if NameTaken(collections, owner, kind, parent, name, "") { return NameExists; }
      collections := collections[id := Collection(kind, name, parent, owner, root, false, 1, false, "")];
      err := NoColError;
    }

    // SetCollectionParent reads both rows, outside the transaction.
    method RootForMove(id: Id, parent: Id) returns (err: ColError, root: Id)
      ensures err == ReadMove(collections, id, parent)
      ensures err == NoColError ==> root == RootNow(collections, id, parent)
    {
      err, root := NoColError, id;
      if id !in collections { return ColNotFound, id; }
      if collections[id].deleted { return ColNotFound, id; }
      if parent != "" {
        if parent !in collections { return ColNotFound, id; }
        if collections[parent].owner != collections[id].owner { return InvalidCollection, id; }
        root := collections[parent].root;
      }
    }

    // The transaction of the move. None: after this many rounds the query that
    // collects the subtree is still running, and nothing is committed.
    method WriteParent(id: Id, parent: Id, root: Id, rounds: nat) returns (err: Option<ColError>)
      requires "" !in collections
      modifies `collections
      ensures UpdateError(old(collections), id, parent) != NoColError ==>
        err == Some(UpdateError(old(collections), id, parent)) && collections == old(collections)
      ensures UpdateError(old(collections), id, parent) == NoColError ==>
        && (err.None? <==> forall n: nat :: n <= rounds ==> !EmptyRound(Relink(old(collections), id, parent), id, n))
        && (err.None? ==> collections == old(collections))
        && (err.Some? ==> err.value == NoColError && CommitMove(old(collections), id, parent, root) == Committed(collections))
    {
      hide NameTaken, AncestorOrSelf;
      if id !in collections { return Some(ColNotFound); }
      if collections[id].deleted { return Some(ColNotFound); }
      if NameTaken(collections, collections[id].owner, collections[id].kind, parent, collections[id].name, id) { return Some(NameExists); }
      var linked := collections[id := collections[id].(parent := parent, rev := collections[id].rev + 1)];
      assert linked == Relink(collections, id, parent);
      var sub, ended := RowsBelow(linked, id, rounds);
      if !ended { return None; }
      assert forall c :: c in linked ==> (c in sub <==> AncestorOrSelf(linked, id, c));
      collections := map c | c in linked :: if c in sub then linked[c].(root := root) else linked[c];
      assert collections == Rerooted(old(collections), id, parent, root);
      err := Some(NoColError);
    }

    method TombstoneCollection(id: Id) returns (ok: bool)
      modifies `collections, `shares
      ensures ok <==> id in old(collections) && !old(collections)[id].deleted
      ensures View() == Server.Tombstone(old(View()), id)
    {
      if id !in collections || collections[id].deleted { return false; }
      collections := collections[id := collections[id].(deleted := true, rev := collections[id].rev + 1)];
      shares := map k | k in shares && k.col != id :: shares[k];
      ok := true;
    }

    // ids.New: a key this device has not used.
    method NewKey(dev: Caller) returns (k: string)
      ensures k != "" && ScopedKey(dev, k) !in idem
    {
      k := "0";
      while ScopedKey(dev, k) in idem
        invariant k != ""
        decreases LongKeys(idem, |ScopedKey(dev, k)|)
      {
        assert ScopedKey(dev, k) in LongKeys(idem, |ScopedKey(dev, k)|);
        assert |ScopedKey(dev, k + "0")| == |ScopedKey(dev, k)| + 1;
        assert LongKeys(idem, |ScopedKey(dev, k + "0")|) < LongKeys(idem, |ScopedKey(dev, k)|);
        k := k + "0";
      }
    }

    // One forced delete, under a key of its own: it succeeds exactly if the ids
    // are well formed and the caller may write the live collection.
    method DeleteOne(dev: Caller, col: Id, o: Id) returns (ok: bool)
      requires Server.Inv(View()) && NoColon(dev.id) && o in objects && !objects[o].deleted && objects[o].col == col
      modifies `objects, `journal, `lastSeq, `blobs, `blobRefs, `idem
      ensures Server.Inv(View())
      ensures ok ==> OneBuried(old(View()), View(), o, dev.id)
      ensures ok <==> Deletable(old(View()), dev, col, o)
    {
      hide Server.Inv, Push, ApplyOne, Deletable, OneBuried;
      ghost var t := View();
      var k := NewKey(dev);
      var inp := Input(o, col, "", Delete, objects[o].rev, "", "", None, "", 0, true);
      Server.PushKeepsInv(t, dev, k, [inp]);
      FreshPush(t, dev, k, inp);
      ForcedDelete(t, dev, ScopedKey(dev, k), inp);
      ForcedDeleteExactly(t, dev, inp);
      AnswerIsDecided(t, dev, ScopedKey(dev, k), inp);
      var reply := PushItems(dev, k, [inp]);
      ok := reply.results[0].status == Ok;
    }

    // Deletes every live object of one collection; false when one refuses.
    method EmptyCollection(dev: Caller, col: Id) returns (ok: bool)
      requires Server.Inv(View()) && NoColon(dev.id)
      modifies `objects, `journal, `lastSeq, `blobs, `blobRefs, `idem
      ensures Server.Inv(View())
      ensures ok ==> Emptying(old(View()), View(), LiveIn(old(objects), col), dev.id)
      ensures ok <==> MayEmpty(old(View()), dev, col)
    {
      hide Server.Inv, OneBuried, Deletable;
      ghost var t := View();
      var all := LiveIn(objects, col);
      var rest := all;
      assert all - rest == {};
      while rest != {}
        invariant rest <= all && Server.Inv(View()) && Emptying(t, View(), all - rest, dev.id)
        invariant forall o :: o in all - rest ==> Deletable(t, dev, col, o)
        decreases rest
      {
        var o :| o in rest;
        ghost var t1 := View();
        EmptyingKeepsDeletable(t, t1, all - rest, dev, col, o);
        var done := DeleteOne(dev, col, o);
        if !done { return false; }
        BuriesOneMore(t, t1, View(), all - rest, o, dev.id);
        assert all - (rest - {o}) == (all - rest) + {o};
        rest := rest - {o};
      }
      assert all - rest == all;
      ok := true;
    }

    // The trees of the children, one after the other.
    method DeleteChildren(dev: Caller, col: Id, kind: string, ghost rank: map<Id, nat>, ghost bound: nat) returns (ok: bool)
      requires Server.Inv(View()) && NoColon(dev.id) && col in collections
      requires Ranked(collections, rank) && forall c :: c in rank ==> rank[c] <= bound
      modifies `objects, `journal, `lastSeq, `blobs, `blobRefs, `idem, `collections, `shares
      ensures Server.Inv(View())
      ensures ok ==> TreeGone(old(View()), View(), Trees(old(collections), Children(old(collections), kind, col), kind), dev.id)
      ensures var below := Trees(old(collections), Children(old(collections), kind, col), kind);
        old(KeepsAccess(View(), dev, below, below)) ==> (ok <==> old(Clear(View(), dev, below)))
      decreases bound - rank[col], 0
    {
      hide Server.Inv, TreeGone, LinksInv, Trees, TreeOf, NoColon, Clear, KeepsAccess;
      ghost var t0 := View();
      Server.InvParts(t0);
      var children := Children(collections, kind, col);
      var rest := children;
      NoTrees(t0, children - rest, kind, dev.id);
      ghost var below := Trees(t0.collections, children, kind);
      ghost var keeps := KeepsAccess(t0, dev, below, below);
      NothingIsClear(t0, dev, children - rest, kind);
      while rest != {}
        invariant rest <= children && Server.Inv(View())
        invariant TreeGone(t0, View(), Trees(t0.collections, children - rest, kind), dev.id)
        invariant keeps ==> Clear(t0, dev, Trees(t0.collections, children - rest, kind))
        decreases rest
      {
        var c :| c in rest;
        ghost var t1 := View();
        ChildIsReady(t0, t1, dev.id, rank, col, kind, children, children - rest, c);
        ChildClears(t0, t1, dev, col, kind, children - rest, c);
        ok := DeleteCollectionTree(dev, c, rank, bound);
        if !ok { ClearBelow(t0, dev, TreeOf(t0.collections, c, kind), below); return; }
        TreesGrow(t0, t1, View(), dev.id, col, kind, children - rest, c);
        OneMoreIsClear(t0, dev, children - rest, c, kind);
        OneMoreDone(children, rest, c);
        rest := rest - {c};
      }
      assert children - rest == children;
      ok := true;
    }

    // DeleteCollectionTree: children first, then the objects, then the
    // collection itself. The ranks of the forest bound the recursion. It
    // succeeds exactly if every collection of the tree is live and the caller
    // may delete what is in it, unless their access to one hangs on a share of
    // another in the tree, which only a stale root can bring about.
    method DeleteCollectionTree(dev: Caller, col: Id, ghost rank: map<Id, nat>, ghost bound: nat) returns (ok: bool)
      requires Server.Inv(View()) && NoColon(dev.id) && col in collections
      requires Ranked(collections, rank) && forall c :: c in rank ==> rank[c] <= bound
      modifies `objects, `journal, `lastSeq, `blobs, `blobRefs, `idem, `collections, `shares
      ensures Server.Inv(View())
      ensures ok ==> TreeGone(old(View()), View(), TreeOf(old(collections), col, old(collections)[col].kind), dev.id)
      ensures var tree := TreeOf(old(collections), col, old(collections)[col].kind);
        old(KeepsAccess(View(), dev, tree, tree - {col})) ==> (ok <==> old(Clear(View(), dev, tree)))
      decreases bound - rank[col], 1
    {
      hide Server.Inv, TreeGone, LinksInv, Trees, TreeOf, KeysScoped, Chain.JournalInv, Server.AcksKnown, Children, Emptying,
           Clear, KeepsAccess, MayEmpty;
      ghost var t0 := View();
      Server.InvParts(t0);
      var kind := collections[col].kind;
      TopIsNotBelow(t0.collections, col, kind);
      ghost var below := Trees(t0.collections, Children(t0.collections, kind, col), kind);
      TreeIsClear(t0, dev, below, col);
      ok := DeleteChildren(dev, col, kind, rank, bound);
      if !ok { return; }
      ghost var t1 := View();
      TopAfterBelow(t0, t1, below, dev, col);
      ok := EmptyCollection(dev, col);
      if !ok { return; }
      ghost var t2 := View();
      EmptyingKeepsPlaces(t1, t2, LiveIn(t1.objects, col), dev.id);
      Server.TombstoneKeepsInv(t2, col);
      ok := TombstoneCollection(col);
      if ok { TopGoesLast(t0, t1, t2, View(), dev.id, col, kind); }
    }
  }

  lemma ExistingId(t: Tables, dev: Caller, inp: Input)
    requires inp.col in t.collections && inp.oid in t.objects
    ensures DecideCreate(t, dev, inp) ==
      Refuse(t.blobRefs, if Rank(AccessFor(t, dev, t.objects[inp.oid].col)) < Rank(Read) then Rejected(inp, ObjectIdInUse)
                         else Conflicted(inp, t.objects[inp.oid]))
  {}

  lemma MissingId(t: Tables, dev: Caller, inp: Input)
    requires inp.col in t.collections && inp.oid !in t.objects
    ensures DecideUpdate(t, dev, inp) == Refuse(t.blobRefs, Rejected(inp, NotFound))
  {}

  lemma ExtraCostGrows(blobs: map<Hash, Blob>, hs: set<Hash>, h: Hash)
    requires h !in hs
    ensures ExtraCost(blobs, hs + {h}) == ExtraCost(blobs, hs) + BlobSize(blobs, h)
  {
    var m := map k | k in hs :: BlobSize(blobs, k);
    assert (map k | k in hs + {h} :: BlobSize(blobs, k)) == m[h := BlobSize(blobs, h)];
    SumUpdate(m, h, BlobSize(blobs, h));
  }

  lemma {:induction false} EnsureAllIgnoresRefs(t: Tables, t1: Tables, refs: set<(Id, Hash)>, dev: Caller, owner: Id, hs: seq<Hash>)
    requires t1.blobs == t.blobs && t1.files == t.files
    ensures EnsureAll(t1, refs, dev, owner, hs) == EnsureAll(t, refs, dev, owner, hs)
    decreases |hs|
  {
    if hs != [] { EnsureAllIgnoresRefs(t, t1, AddRef(refs, owner, hs[0]), dev, owner, hs[1..]); }
  }

  lemma ChargeIgnoresRefs(t: Tables, t1: Tables, inp: Input)
    requires t1 == t.(blobRefs := t1.blobRefs)
    ensures ChargeError(t1, inp) == ChargeError(t, inp) && StoredSize(t1, inp) == StoredSize(t, inp)
  {}

  lemma QuotaIgnoresRefs(t: Tables, t1: Tables, owner: Id)
    requires t1 == t.(blobRefs := t1.blobRefs)
    ensures forall delta :: QuotaAllows(t1, owner, delta) == QuotaAllows(t, owner, delta)
  {
    UsageSame(t, t1, owner);
  }

  lemma RestIgnoresRefs(t: Tables, t1: Tables, refs: set<(Id, Hash)>, dev: Caller, inp: Input, hs: seq<Hash>, oldCharge: int)
    requires t1 == t.(blobRefs := t1.blobRefs) && inp.col in t.collections
    ensures CheckRest(t1, refs, dev, inp, hs, oldCharge) == CheckRest(t, refs, dev, inp, hs, oldCharge)
    ensures StoredSize(t1, inp) == StoredSize(t, inp) && NewCharge(t1, inp) == NewCharge(t, inp)
  {
    hide EnsureAll, ChargeError, QuotaAllows;
    EnsureAllIgnoresRefs(t, t1, refs, dev, t.collections[inp.col].owner, hs);
    ChargeIgnoresRefs(t, t1, inp);
    QuotaIgnoresRefs(t, t1, t.collections[inp.col].owner);
  }

  // What moves between the rows, from the fields the writer looks at.
  lemma MovesAs(b: map<Hash, Blob>, before: Option<Object>, row: Object, prevBlob: Hash, prevMeta: Meta, newBlob: Hash, newMeta: Meta)
    requires before.Some? ==> !before.value.deleted && prevBlob == before.value.blob && prevMeta == before.value.meta
    requires before.None? ==> prevBlob == "" && prevMeta == EmptyMeta()
    requires newBlob == (if row.deleted then "" else row.blob) && newMeta == if row.deleted then EmptyMeta() else row.meta
    ensures prevBlob == LiveBlob(before) && newBlob == LiveBlob(Some(row))
    ensures Extra(prevMeta) == LiveExtra(before) && Extra(newMeta) == LiveExtra(Some(row))
    ensures MoveRefs(b, before, Some(row)) ==
      AdjustExtra(if prevBlob != newBlob then Inc(Dec(b, prevBlob), newBlob) else b, Extra(prevMeta), Extra(newMeta))
  {
    hide AdjustExtra, Inc, Dec;
    NoExtra();
  }

  lemma KeysAsBefore(b: map<Hash, Blob>, x: Hash, y: Hash)
    ensures Dec(b, x).Keys == b.Keys && Inc(Dec(b, x), y).Keys == b.Keys
  {}

  lemma NoExtra()
    ensures Extra(EmptyMeta()) == {}
  {}

  // The rows the query returns, which the masking still has to visit.
  ghost predicate Unmasked(t: Tables, sc: Scope, changes: seq<Change>, rows: seq<Change>) {
    |changes| == |rows| && forall k :: 0 <= k < |changes| ==> changes[k].oid in t.objects && Masked(t, sc, changes[k]) == rows[k]
  }

  // The rows whose object has moved to another collection since, and where to.
  ghost predicate MovedRows(t: Tables, changes: seq<Change>, moved: map<int, Id>) {
    && (forall k :: 0 <= k < |changes| ==> changes[k].oid in t.objects)
    && (forall k :: k in moved <==> 0 <= k < |changes| && t.objects[changes[k].oid].col != changes[k].col)
    && (forall k :: k in moved ==> moved[k] == t.objects[changes[k].oid].col)
  }

  lemma NoRows(t: Tables, sc: Scope)
    ensures Unmasked(t, sc, [], []) && MovedRows(t, [], map[])
  {}

  lemma RowAdded(t: Tables, sc: Scope, changes: seq<Change>, moved: map<int, Id>, rows: seq<Change>, c: Change)
    requires Unmasked(t, sc, changes, rows) && MovedRows(t, changes, moved) && c.oid in t.objects
    ensures Unmasked(t, sc, changes + [c], rows + [Masked(t, sc, c)])
    ensures MovedRows(t, changes + [c], if t.objects[c.oid].col != c.col then moved[|changes| := t.objects[c.oid].col] else moved)
  {
    hide Masked;
  }

  // One row past the page is enough to cut it.
  lemma CutNeedsOneMore(rows: seq<Change>, all: seq<Change>, since: int, n: nat)
    requires rows <= all && (|rows| <= n ==> rows == all) && (|rows| <= n || |rows| == n + 1)
    ensures Cut(rows, since, n) == Cut(all, since, n)
  {
    if |rows| == n + 1 { assert rows[..n] == all[..n]; }
  }

  ghost function LongKeys(idem: map<string, IdemRow>, n: nat): set<string> { set x | x in idem && |x| >= n }

  lemma RepairedBlobs(t: Tables, blobs: map<Hash, Blob>)
    requires blobs.Keys == t.blobs.Keys && forall h :: h in blobs ==> blobs[h] == Blob(t.blobs[h].size, Recount(t.objects, h))
    ensures t.(blobs := blobs) == Repair(t)
  {
    hide Recount;
  }

  lemma NoUses()
    ensures forall h :: Recount(map[], h) == 0
  {
    forall h ensures Recount(map[], h) == 0 { assert UseMap(map[], h) == map[]; }
  }

  lemma {:induction false} RowsPrefix(t: Tables, j: seq<Entry>, i: nat, sc: Scope, since: int, col: Id)
    requires i <= |j|
    ensures Rows(t, j[..i], sc, since, col) <= Rows(t, j, sc, since, col)
    decreases |j| - i
  {
    if i == |j| {
      assert j[..i] == j;
    } else {
      RowsPrefix(t, j, i + 1, sc, since, col);
      assert j[..i + 1][..i] == j[..i];
    }
  }

  lemma {:induction false} WithoutNone(j: seq<Entry>)
    ensures Without(j, {}) == j
  {
    if j != [] { WithoutNone(j[..|j| - 1]); }
  }

  lemma {:induction false} WithoutMore(j: seq<Entry>, a: set<Id>, b: set<Id>)
    ensures Without(Without(j, a), b) == Without(j, a + b)
  {
    if j != [] {
      var head := j[..|j| - 1];
      WithoutMore(head, a, b);
      assert (Without(head, a) + [j[|j| - 1]])[..|Without(head, a)|] == Without(head, a);
    }
  }

  // "At or below the least ack" is "acknowledged by every sync device".
  lemma LeastAckDecides(t: Tables, least: nat, out: set<Id>)
    requires SyncDevices(t) == {} ==> least == HeadSeq(t.journal)
    requires SyncDevices(t) != {} ==> exists d :: d in SyncDevices(t) && Acked(t, d) == least
    requires forall d :: d in SyncDevices(t) ==> least <= Acked(t, d)
    requires out == set o | o in t.objects && t.objects[o].deleted && Of(t.journal, o) != [] && LastSeq(t.journal, o) <= least
    ensures out == Tombstones(t)
  {
    hide LastSeq, Of, SyncDevices, HeadSeq;
    forall o | o in t.objects ensures o in out <==> Compactable(t, o) {}
  }

  lemma NoCleanChain(cols: Collections, id: Id, c: Id, n: nat)
    requires Up(cols, c, n) != "" && (Up(cols, c, n) == id || Up(cols, c, n) !in cols)
    requires forall i: nat :: i < n ==> Up(cols, c, i) != ""
    ensures !ProvenlyOutside(cols, id, c)
  {
    hide Up;
    forall m: nat ensures !CleanChain(cols, id, c, m) {
      if m <= n { assert Up(cols, c, m) != ""; }
    }
  }

  lemma TombstonesAreDeleted(t: Tables)
    ensures forall o :: o in Tombstones(t) ==> o in t.objects && t.objects[o].deleted
  {}

  // The recursive query of a move, round by round and without remembering
  // what it met: an empty round ends it, and it then has everything at or
  // below id.
  method RowsBelow(cols: Collections, id: Id, rounds: nat) returns (sub: set<Id>, ended: bool)
    requires "" !in cols && id in cols
    ensures ended <==> exists n: nat :: n <= rounds && EmptyRound(cols, id, n)
    ensures ended ==> QueryEnds(cols, id) && sub == set c | c in cols && AncestorOrSelf(cols, id, c)
  {
    var level := {id};
    sub := {};
    var n: nat := 0;
    while level != {} && n < rounds
      invariant n <= rounds && level == Round(cols, id, n)
      invariant forall c :: c in sub <==> exists i: nat :: i < n && c in Round(cols, id, i)
      invariant forall i: nat :: i < n ==> !EmptyRound(cols, id, i)
      decreases rounds - n
    {
      sub := sub + level;
      level := set c | c in cols.Keys && cols[c].parent in level;
      n := n + 1;
    }
    ended := level == {};
    if ended {
      assert EmptyRound(cols, id, n);
      forall c | c in sub ensures c in cols && AncestorOrSelf(cols, id, c) {
        var i: nat :| i < n && c in Round(cols, id, i);
        RoundInCols(cols, id, i);
        RoundIs(cols, id, i, c);
      }
      forall c | c in cols && AncestorOrSelf(cols, id, c) ensures c in sub {
        var i: nat :| Up(cols, c, i) == id;
        RoundIs(cols, id, i, c);
        if n <= i { RoundsStayEmpty(cols, id, n, i); }
      }
    }
  }

  lemma {:induction false} RoundsStayEmpty(cols: Collections, id: Id, n: nat, i: nat)
    requires EmptyRound(cols, id, n) && n <= i
    ensures EmptyRound(cols, id, i)
  {
    if n < i { RoundsStayEmpty(cols, id, n, i - 1); }
  }
}
