// The quota bound without its premise: exactly which item takes an owner past
// it, and how a server gets there.

module QuotaExact {
  import opened Wrappers
  import opened Model
  import opened Access
  import opened Sums
  import opened PushSpec
  import opened Writes
  import opened Quota
  import opened Outcomes
  import Idempotency
  import opened Server

  // An accepted update of a live object that does not count for its owner, as
  // its collection is tombstoned: only its growth is checked, but its whole
  // new charge comes to count.
  ghost predicate Escapes(t: Tables, dev: Caller, inp: Input, u: Id)
    requires Limited(t, u)
  {
    && inp.op == Update && Acceptable(t, dev, inp)
    && t.collections[inp.col].owner == u
    && !CountsFor(t.collections, u, t.objects[inp.oid])
    && Usage(t, u) + NewCharge(t, inp) > Max(t.users[u].quota, Usage(t, u))
  }

  // What an accepted item does to the usage of u.
  lemma AcceptedMovesUsage(t: Tables, dev: Caller, key: string, inp: Input, u: Id)
    requires Acceptable(t, dev, inp)
    ensures var after := if inp.op != Delete && t.collections[inp.col].owner == u then NewCharge(t, inp) else 0;
      Usage(ApplyOne(t, dev, key, inp).0, u) == Usage(t, u) - Counted(t, u, Row(t, inp.oid)) + after
  {
    hide Decide, Acceptable, NewCharge, Usage, MoveRefs, Put;
    AcceptedExactly(t, dev, inp);
    WrittenCharge(t, dev, inp);
    var d := Decide(t, dev, inp);
    var t1 := t.(blobRefs := d.refs);
    UsageSame(t, t1, u);
    UsageMoves(t1, inp.oid, d.write.value, dev.id, key, u);
  }

  lemma WrittenCharge(t: Tables, dev: Caller, inp: Input)
    requires Acceptable(t, dev, inp) && Decide(t, dev, inp).write.Some?
    ensures inp.col in t.collections && !t.collections[inp.col].deleted
    ensures var row := Decide(t, dev, inp).write.value.row;
      if inp.op == Delete then row.deleted else !row.deleted && row.col == inp.col && row.charged == NewCharge(t, inp)
  {
    hide GateError, CheckCreate, CheckUpdate, NewCharge, StoredSize, MetaOf, ContentOk, Fits, WellFormed, AccessFor;
  }

  lemma RefusedMovesNothing(t: Tables, dev: Caller, key: string, inp: Input, u: Id)
    requires !Acceptable(t, dev, inp)
    ensures Usage(ApplyOne(t, dev, key, inp).0, u) == Usage(t, u)
  {
    hide Decide, Acceptable, Usage;
    AcceptedExactly(t, dev, inp);
    UsageSame(t, ApplyOne(t, dev, key, inp).0, u);
  }

  // One item takes a limited owner past max(quota, usage before) exactly if it
  // escapes; no premise on collections is needed.
  lemma ItemKeepsQuotaExactly(t: Tables, dev: Caller, key: string, inp: Input, u: Id)
    requires Limited(t, u) && ChargesExact(t)
    ensures Usage(ApplyOne(t, dev, key, inp).0, u) <= Max(t.users[u].quota, Usage(t, u)) <==> !Escapes(t, dev, inp, u)
  {
    hide ApplyOne, Usage, NewCharge, ContentOk, WellFormed, AccessFor, MirrorReadOnly, ChargesExact;
    if Acceptable(t, dev, inp) {
      AcceptedMovesUsage(t, dev, key, inp, u);
      if inp.oid in t.objects && !t.objects[inp.oid].deleted { ChargeIsNonNegative(t, inp.oid); }
    } else {
      RefusedMovesNothing(t, dev, key, inp, u);
      hide Acceptable;
    }
  }

  // ---- batches ------------------------------------------------------------------

  // The tables after the first n items of a batch.
  ghost function Before(t: Tables, dev: Caller, key: string, items: seq<Input>, n: nat): Tables
    requires n <= |items|
  {
    ApplyAll(t, dev, key, items[..n]).0
  }

  lemma {:induction false} BatchKeepsCharges(t: Tables, dev: Caller, key: string, items: seq<Input>)
    requires ChargesExact(t)
    ensures ChargesExact(ApplyAll(t, dev, key, items).0)
    decreases |items|
  {
    hide ApplyOne, ChargesExact;
    if items != [] {
      BatchKeepsCharges(t, dev, key, items[..|items| - 1]);
      ItemKeepsCharges(ApplyAll(t, dev, key, items[..|items| - 1]).0, dev, key, items[|items| - 1]);
    }
  }

  lemma OneMoreItem(t: Tables, dev: Caller, key: string, items: seq<Input>, n: nat)
    requires n < |items|
    ensures Before(t, dev, key, items, n + 1) == ApplyOne(Before(t, dev, key, items, n), dev, key, items[n]).0
  {
    hide ApplyOne;
    assert items[..n + 1][..n] == items[..n];
  }

  ghost predicate StaysWithin(t: Tables, dev: Caller, key: string, items: seq<Input>, u: Id, n: nat)
    requires n < |items| && Limited(t, u)
  {
    Usage(Before(t, dev, key, items, n + 1), u) <= Max(t.users[u].quota, Usage(Before(t, dev, key, items, n), u))
  }

  ghost predicate EscapesAt(t: Tables, dev: Caller, key: string, items: seq<Input>, u: Id, n: nat)
    requires n < |items| && Limited(t, u)
  {
    var t1 := Before(t, dev, key, items, n);
    Limited(t1, u) && Escapes(t1, dev, items[n], u)
  }

  // Within a batch exactly the escaping items take an owner past the larger of
  // quota and usage.
  lemma BatchItemExactly(t: Tables, dev: Caller, key: string, items: seq<Input>, u: Id, n: nat)
    requires Limited(t, u) && ChargesExact(t) && n < |items|
    ensures StaysWithin(t, dev, key, items, u, n) <==> !EscapesAt(t, dev, key, items, u, n)
  {
    hide ApplyAll, ApplyOne, Usage, Escapes, ChargesExact;
    BatchFrame(t, dev, key, items[..n]);
    BatchKeepsCharges(t, dev, key, items[..n]);
    OneMoreItem(t, dev, key, items, n);
    ItemKeepsQuotaExactly(Before(t, dev, key, items, n), dev, key, items[n], u);
  }

  // A batch without such an item keeps the bound as a whole.
  lemma {:induction false} BatchKeepsQuotaUnlessEscaped(t: Tables, dev: Caller, key: string, items: seq<Input>, u: Id, n: nat)
    requires Limited(t, u) && ChargesExact(t) && n <= |items|
    requires forall i: nat :: i < n ==> !EscapesAt(t, dev, key, items, u, i)
    ensures Usage(Before(t, dev, key, items, n), u) <= Max(t.users[u].quota, Usage(t, u))
  {
    hide Usage, EscapesAt;
    if n == 0 {
      assert items[..0] == [];
    } else {
      BatchKeepsQuotaUnlessEscaped(t, dev, key, items, u, n - 1);
      BatchItemExactly(t, dev, key, items, u, n - 1);
      hide Before;
    }
  }

  // Live objects in live collections: nothing can escape.
  lemma NothingEscapes(t: Tables, dev: Caller, inp: Input, u: Id)
    requires Limited(t, u) && LiveObjectsInLiveCollections(t)
    ensures !Escapes(t, dev, inp, u)
  {
    hide Usage, NewCharge, ContentOk, WellFormed, Fits, AccessFor, MirrorReadOnly, MetaOf;
  }

  // ---- a server that gets there ------------------------------------------------------

  // A blob-less file with empty metadata, forced in.
  function PlainFile(oid: Id, col: Id, op: Op, size: nat): Input {
    Input(oid, col, "", op, 0, "", "", None, "", size, true)
  }

  lemma PlainCharge(t: Tables, oid: Id, col: Id, op: Op, size: nat)
    ensures NewCharge(t, PlainFile(oid, col, op, size)) == size + 2
    ensures Cost(t.blobs, size, "", EmptyMeta()) == size + 2
  {
    var none: map<Hash, int> := map[];
    assert (map h | h in Extra(EmptyMeta()) - {""} :: BlobSize(t.blobs, h)) == none;
    assert Sum(none) == 0;
  }

  lemma NothingCounts(t: Tables, u: Id)
    requires forall o :: o in t.objects ==> !CountsFor(t.collections, u, t.objects[o])
    ensures Usage(t, u) == 0
  {
    var m := Charges(t, u);
    SumDropZeros(m, m.Keys);
    var none: map<Id, int> := map[];
    assert m - m.Keys == none;
  }

  // Forced plain files are accepted from system callers whenever they fit.
  lemma PlainFileIsAccepted(t: Tables, dev: Caller, oid: Id, col: Id, op: Op, size: nat)
    requires dev.System() && !dev.revoked && ValidId(oid) && ValidId(col)
    requires col in t.collections && !t.collections[col].deleted && size <= t.maxBlob
    requires op == Create ==> oid !in t.objects
    requires op == Update ==> && oid in t.objects && !t.objects[oid].deleted && t.objects[oid].col in t.collections
                              && t.collections[t.objects[oid].col].owner == t.collections[col].owner
    requires op == Create || op == Update
    requires QuotaAllows(t, t.collections[col].owner, size + 2 - OldCharge(t, oid))
    ensures Acceptable(t, dev, PlainFile(oid, col, op, size))
  {
    hide ValidId, NewCharge, QuotaAllows;
    PlainCharge(t, oid, col, op, size);
  }

  // The tables once a file was created in src, and src was tombstoned after.
  ghost predicate Raced(t: Tables, u: Id, src: Id, dst: Id, oid: Id) {
    && u in t.users && t.users[u].quota == 12 && src != dst && src in t.collections && dst in t.collections
    && t.collections[src].owner == u && t.collections[dst].owner == u && t.collections[src].deleted && !t.collections[dst].deleted
    && t.objects.Keys == {oid} && !t.objects[oid].deleted && t.objects[oid].col == src && t.objects[oid].charged == 12
  }

  lemma RacedEscapes(t: Tables, dev: Caller, u: Id, src: Id, dst: Id, oid: Id)
    requires Raced(t, u, src, dst, oid) && u != "" && t.maxBlob >= 22
    requires dev.System() && !dev.revoked && ValidId(oid) && ValidId(dst)
    ensures Limited(t, u) && Escapes(t, dev, PlainFile(oid, dst, Update, 22), u)
  {
    hide Usage, Acceptable, NewCharge;
    NothingCounts(t, u);
    PlainCharge(t, oid, dst, Update, 22);
    PlainFileIsAccepted(t, dev, oid, dst, Update, 22);
  }

  // The tables before the race: two live collections of u, nothing in them.
  ghost predicate Ready(t: Tables, u: Id, src: Id, dst: Id) {
    && t.users == map[u := User(true, 12)] && src != dst && src in t.collections && dst in t.collections
    && t.collections[src].owner == u && t.collections[dst].owner == u && !t.collections[src].deleted && !t.collections[dst].deleted
    && t.objects == map[] && t.idem == map[]
  }

  // The push of a file into src, once src was listed as empty.
  lemma FileArrives(t: Tables, dev: Caller, k: string, u: Id, src: Id, dst: Id, oid: Id)
    requires Ready(t, u, src, dst) && t.maxBlob >= 22 && ValidId(oid) && ValidId(src) && k != ""
    requires dev.System() && !dev.revoked
    ensures var t' := Idempotency.Push(t, dev, k, [PlainFile(oid, src, Create, 10)]).0;
      && t' == t.(objects := t'.objects, blobs := t'.blobs, blobRefs := t'.blobRefs, journal := t'.journal, lastSeq := t'.lastSeq, idem := t'.idem)
      && t'.objects.Keys == {oid} && !t'.objects[oid].deleted && t'.objects[oid].col == src && t'.objects[oid].charged == 12
  {
    hide Usage, ApplyOne, Idempotency.Push, Acceptable, Cost, ValidId, BlobSize;
    var inp := PlainFile(oid, src, Create, 10);
    var key := Idempotency.ScopedKey(dev, k);
    NothingCounts(t, u);
    PlainFileIsAccepted(t, dev, oid, src, Create, 10);
    AcceptedStoresInput(t, dev, key, inp);
    ItemFrame(t, dev, key, inp);
    ItemKeepsCharges(t, dev, key, inp);
    var t1 := ApplyOne(t, dev, key, inp).0;
    PlainCharge(t1, oid, src, Create, 10);
    Idempotency.FreshPush(t, dev, k, inp);
    assert t1.objects[oid].blob == "" && t1.objects[oid].meta == EmptyMeta() && t1.objects[oid].size == 10;
  }

  lemma TombstoneRaces(t: Tables, u: Id, src: Id, dst: Id, oid: Id)
    requires u in t.users && t.users[u].quota == 12 && src != dst && src in t.collections && dst in t.collections
    requires t.collections[src].owner == u && t.collections[dst].owner == u && !t.collections[src].deleted && !t.collections[dst].deleted
    requires t.objects.Keys == {oid} && !t.objects[oid].deleted && t.objects[oid].col == src && t.objects[oid].charged == 12
    ensures Raced(Tombstone(t, src), u, src, dst, oid) && Tombstone(t, src).maxBlob == t.maxBlob
  {}

  // The deletion of an empty collection lists its objects, a push adds one,
  // and the collection is tombstoned: from the empty server, in a run, to a
  // state in which an item escapes.
  lemma EscapeIsReachable(maxBlob: int, dev: Caller, k: string, u: Id, src: Id, dst: Id, oid: Id) returns (run: seq<Step>)
    requires maxBlob >= 22 && u != "" && src != dst && ValidId(src) && ValidId(dst) && ValidId(oid) && k != ""
    requires dev.System() && !dev.revoked && Idempotency.NoColon(dev.id)
    ensures var s0 := Srv(Empty(maxBlob), {});
      && PossibleRun(s0, run)
      && var t := RunAll(s0, run).t;
         Limited(t, u) && Escapes(t, dev, PlainFile(oid, dst, Update, 22), u)
  {
    hide SrvInv, Escapes, Empty, Limited, PossibleRun, RunAll, Next, Environment, Roots, IdSet;
    var s0 := Srv(Empty(maxBlob), {});
    var r1, s1 := RootsAreCreated(maxBlob, u, [src, dst]);
    hide ValidId;
    var a2, a3, a4 := DoAdmin(map[u := User(true, 12)], {}, map[]), DoPush(dev, k, [PlainFile(oid, src, Create, 10)]), DoTombstone(src);
    RaceFrom(maxBlob, s1.t, dev, k, u, src, dst, oid);
    RunOfThreeWrites(s0, r1, a2, a3, a4);
    run := r1 + [Writes(a2), Writes(a3), Writes(a4)];
  }

  lemma TheseSteps(t: Tables, users: map<Id, User>, dev: Caller, k: string, items: seq<Input>, src: Id)
    requires Idempotency.NoColon(dev.id)
    ensures Next(t, DoAdmin(users, {}, map[])) == t.(users := users, members := {}, shares := map[])
    ensures Next(t, DoPush(dev, k, items)) == Idempotency.Push(t, dev, k, items).0 && Next(t, DoTombstone(src)) == Tombstone(t, src)
    ensures Environment(t, DoAdmin(users, {}, map[])) && Environment(t, DoPush(dev, k, items)) && Environment(t, DoTombstone(src))
  {
    hide Idempotency.Push, Tombstone;
  }

  lemma RaceFrom(maxBlob: int, t1: Tables, dev: Caller, k: string, u: Id, src: Id, dst: Id, oid: Id)
    requires maxBlob >= 22 && u != "" && src != dst && ValidId(src) && ValidId(dst) && ValidId(oid) && k != ""
    requires dev.System() && !dev.revoked && Idempotency.NoColon(dev.id)
    requires t1 == Empty(maxBlob).(collections := Roots(u, IdSet([src, dst])))
    ensures var t2 := Next(t1, DoAdmin(map[u := User(true, 12)], {}, map[]));
      var t3 := Next(t2, DoPush(dev, k, [PlainFile(oid, src, Create, 10)]));
      var t4 := Next(t3, DoTombstone(src));
      && Environment(t1, DoAdmin(map[u := User(true, 12)], {}, map[]))
      && Environment(t2, DoPush(dev, k, [PlainFile(oid, src, Create, 10)])) && Environment(t3, DoTombstone(src))
      && Limited(t4, u) && Escapes(t4, dev, PlainFile(oid, dst, Update, 22), u)
  {
    hide Idempotency.Push, Raced;
    var users, push := map[u := User(true, 12)], [PlainFile(oid, src, Create, 10)];
    var t2 := t1.(users := users, members := {}, shares := map[]);
    var t3 := Idempotency.Push(t2, dev, k, push).0;
    assert IdSet([src, dst]) == {src, dst};
    assert Ready(t2, u, src, dst);
    hide Ready, ValidId, Roots, IdSet, Next, Environment, Escapes, Tombstone, Limited;
    TheseSteps(t1, users, dev, k, push, src);
    TheseSteps(t2, users, dev, k, push, src);
    TheseSteps(t3, users, dev, k, push, src);
    FileRaces(t2, dev, k, u, src, dst, oid);
    RacedEscapes(Tombstone(t3, src), dev, u, src, dst, oid);
  }

  lemma FileRaces(t: Tables, dev: Caller, k: string, u: Id, src: Id, dst: Id, oid: Id)
    requires Ready(t, u, src, dst) && t.maxBlob >= 22 && ValidId(oid) && ValidId(src) && k != "" && dev.System() && !dev.revoked
    ensures var t' := Tombstone(Idempotency.Push(t, dev, k, [PlainFile(oid, src, Create, 10)]).0, src);
      Raced(t', u, src, dst, oid) && t'.maxBlob == t.maxBlob
  {
    hide ValidId, Idempotency.Push;
    FileArrives(t, dev, k, u, src, dst, oid);
    TombstoneRaces(Idempotency.Push(t, dev, k, [PlainFile(oid, src, Create, 10)]).0, u, src, dst, oid);
  }

  lemma RunOfThreeWrites(s: Srv, r: seq<Step>, a: Action, b: Action, c: Action)
    requires PossibleRun(s, r) && !a.DoCreate? && !a.DoMove? && !b.DoCreate? && !b.DoMove? && !c.DoCreate? && !c.DoMove?
    requires var t := RunAll(s, r).t;
      Environment(t, a) && Environment(Next(t, a), b) && Environment(Next(Next(t, a), b), c)
    ensures var run := r + [Writes(a), Writes(b), Writes(c)];
      PossibleRun(s, run) && RunAll(s, run).t == Next(Next(Next(RunAll(s, r).t, a), b), c)
  {
    hide Environment, Next, PossibleRun, RunAll;
    RunOfOneMore(s, r, Writes(a));
    RunOfOneMore(s, r + [Writes(a)], Writes(b));
    RunOfOneMore(s, r + [Writes(a)] + [Writes(b)], Writes(c));
    assert r + [Writes(a), Writes(b), Writes(c)] == r + [Writes(a)] + [Writes(b)] + [Writes(c)];
  }

  // ---- what an item costs and frees ------------------------------------------------

  // An accepted create adds what it stores to its owner's usage.
  lemma CreateIsCharged(t: Tables, dev: Caller, key: string, inp: Input)
    requires Acceptable(t, dev, inp) && inp.op == Create
    ensures var u := t.collections[inp.col].owner; Usage(ApplyOne(t, dev, key, inp).0, u) == Usage(t, u) + NewCharge(t, inp)
    ensures forall v :: v != t.collections[inp.col].owner ==> Usage(ApplyOne(t, dev, key, inp).0, v) == Usage(t, v)
  {
    hide ApplyOne, Usage, NewCharge, ContentOk, Fits, WellFormed, AccessFor, MirrorReadOnly;
    forall v ensures Usage(ApplyOne(t, dev, key, inp).0, v) == Usage(t, v) + if v == t.collections[inp.col].owner then NewCharge(t, inp) else 0 {
      AcceptedMovesUsage(t, dev, key, inp, v);
    }
  }

  // An accepted delete frees all that the object was charged, at once.
  lemma DeleteFreesCharge(t: Tables, dev: Caller, key: string, inp: Input)
    requires Acceptable(t, dev, inp) && inp.op == Delete && t.objects[inp.oid].col in t.collections
    ensures var c := t.collections[t.objects[inp.oid].col];
      Usage(ApplyOne(t, dev, key, inp).0, c.owner) == Usage(t, c.owner) - if c.deleted then 0 else t.objects[inp.oid].charged
  {
    hide ApplyOne, Usage, NewCharge, WellFormed, AccessFor, MirrorReadOnly;
    AcceptedMovesUsage(t, dev, key, inp, t.collections[t.objects[inp.oid].col].owner);
  }

  // ---- what an upload allows ------------------------------------------------------------

  // An uploaded blob may be attached at once by its uploader, and by nobody else
  // who had no reference before.
  lemma UploadLetsAttach(t: Tables, user: Id, h: Hash, size: nat, dev: Caller)
    requires user != "" && h != ""
    ensures dev.user == user ==> Attachable(Upload(t, user, h, size), dev, h)
    ensures !dev.System() && dev.user != user ==> (Attachable(Upload(t, user, h, size), dev, h) <==> (dev.user, h) in t.blobRefs)
    ensures h in Upload(t, user, h, size).blobs && (h !in t.blobs ==> Upload(t, user, h, size).blobs[h] == Blob(size, 0))
  {}

  // So the next push of a file with it is accepted, if it fits.
  lemma UploadedFileIsAccepted(t: Tables, user: Id, h: Hash, size: nat, dev: Caller, inp: Input)
    requires user != "" && h != "" && dev.user == user
    requires inp.op == Create && inp.oid !in t.objects && inp.blob == h && (inp.hash == "" || inp.hash == h)
    requires WellFormed(inp) && MayPlace(t, dev, inp) && Extra(MetaOf(inp)) <= {h}
    ensures var t' := Upload(t, user, h, size); inp.col in t'.collections && (Fits(t', inp, 0) <==> Acceptable(t', dev, inp))
  {
    hide WellFormed, Fits, ValidId, MetaOf, Attachable;
    UploadLetsAttach(t, user, h, size, dev);
    UploadKeepsPlace(t, user, h, size, dev, inp);
  }

  lemma UploadKeepsPlace(t: Tables, user: Id, h: Hash, size: nat, dev: Caller, inp: Input)
    ensures MayPlace(Upload(t, user, h, size), dev, inp) <==> MayPlace(t, dev, inp)
  {
    hide AddRef, AccessFor, MirrorReadOnly;
    forall col | col in t.collections ensures MayWrite(Upload(t, user, h, size), dev, col) <==> MayWrite(t, dev, col) {
      WritersExactly(t, dev, col);
      WritersExactly(Upload(t, user, h, size), dev, col);
    }
    if inp.oid in t.objects && t.objects[inp.oid].col !in t.collections {
      NowhereIsNotWritten(t, dev, t.objects[inp.oid].col);
      NowhereIsNotWritten(Upload(t, user, h, size), dev, t.objects[inp.oid].col);
    }
  }

  lemma NowhereIsNotWritten(t: Tables, dev: Caller, col: Id)
    requires col !in t.collections
    ensures !MayWrite(t, dev, col)
  {}
}
