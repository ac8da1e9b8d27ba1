// Push is exactly-once per device key: replays, and copies that raced past
// the cache lookup, have the effect and the answer of one execution.

module Idempotency {
  import opened Wrappers
  import opened Model
  import opened PushSpec
  import Quota

  const MAX_BATCH := 500

  datatype PushReply = Replied(results: seq<PushResult>) | BadBatch | KeyRequired | KeyReused

  function ScopedKey(dev: Caller, k: string): string { dev.id + ":" + k }

  ghost predicate NoColon(s: string) { ':' !in s }

  // Every stored key starts with its own device id and a colon.
  ghost predicate KeysScoped(t: Tables) {
    forall k :: k in t.idem ==>
      var d := t.idem[k].dev;
      NoColon(d) && |d| < |k| && k[..|d|] == d && k[|d|] == ':'
  }

  // loadIdempotent.
  function Cached(t: Tables, dev: Caller, key: string): Option<PushReply> {
    if key !in t.idem then None
    else if t.idem[key].dev != dev.id then Some(KeyReused)
    else Some(Replied(t.idem[key].results))
  }

  // The write transaction: all items, then the idempotency row. A key that
  // is taken by now rolls everything back and answers from the stored row.
  ghost function Commit(t: Tables, dev: Caller, key: string, items: seq<Input>): (Tables, PushReply) {
    var (t', rs) := ApplyAll(t, dev, key, items);
    if key in t.idem then (t, Cached(t, dev, key).value)
    else (t'.(idem := t'.idem[key := IdemRow(dev.id, rs)]), Replied(rs))
  }

  ghost function Push(t: Tables, dev: Caller, k: string, items: seq<Input>): (Tables, PushReply) {
    if items == [] || |items| > MAX_BATCH then (t, BadBatch)
    else if k == "" then (t, KeyRequired)
    else
      var key := ScopedKey(dev, k);
      match Cached(t, dev, key)
      case Some(reply) => (t, reply)
      case None => Commit(t, dev, key, items)
  }

  lemma FirstColon(a: string, x: string)
    requires NoColon(a)
    ensures var s := a + ":" + x; s[|a|] == ':' && (forall i :: 0 <= i < |a| ==> s[i] != ':') && s[..|a|] == a && s[|a| + 1..] == x
  {
    forall i | 0 <= i < |a| ensures a[i] != ':' { assert a[i] in a; }
  }

  lemma PrefixUpToColon(a: string, x: string, b: string, y: string)
    requires NoColon(a) && NoColon(b) && a + ":" + x == b + ":" + y
    ensures a == b && x == y
  {
    FirstColon(a, x);
    FirstColon(b, y);
  }

  // Scoping is injective: device ids have no colon, so equal scoped keys mean
  // the same device and the same key.
  lemma ScopedKeysAreInjective(d1: Caller, k1: string, d2: Caller, k2: string)
    requires NoColon(d1.id) && NoColon(d2.id)
    ensures ScopedKey(d1, k1) == ScopedKey(d2, k2) <==> d1.id == d2.id && k1 == k2
  {
    if ScopedKey(d1, k1) == ScopedKey(d2, k2) { PrefixUpToColon(d1.id, k1, d2.id, k2); }
  }

  // A stored row always belongs to the device that asks for it.
  lemma KeyIsNeverReused(t: Tables, dev: Caller, k: string)
    requires KeysScoped(t) && NoColon(dev.id) && ScopedKey(dev, k) in t.idem
    ensures t.idem[ScopedKey(dev, k)].dev == dev.id
  {
    var key := ScopedKey(dev, k);
    var d := t.idem[key].dev;
    assert key == d + ":" + key[|d| + 1..];
    PrefixUpToColon(d, key[|d| + 1..], dev.id, k);
  }

  lemma CommitKeepsKeys(t: Tables, dev: Caller, k: string, items: seq<Input>)
    requires KeysScoped(t) && NoColon(dev.id)
    ensures var t' := Commit(t, dev, ScopedKey(dev, k), items).0;
      KeysScoped(t') && ScopedKey(dev, k) in t'.idem && forall x :: x in t.idem ==> x in t'.idem && t'.idem[x] == t.idem[x]
  {
    var key := ScopedKey(dev, k);
    Quota.BatchFrame(t, dev, key, items);
    assert key[..|dev.id|] == dev.id;
  }

  // One arrival of a push: `late` is a copy that missed the cache before
  // another copy committed, so only its transaction still runs.
  datatype Delivery = Delivery(dev: Caller, k: string, items: seq<Input>, late: bool)

  predicate WellFormed(d: Delivery) { 1 <= |d.items| <= MAX_BATCH && d.k != "" }

  ghost function Deliver(t: Tables, d: Delivery): (Tables, PushReply) {
    if d.late && WellFormed(d) then Commit(t, d.dev, ScopedKey(d.dev, d.k), d.items)
    else Push(t, d.dev, d.k, d.items)
  }

  ghost function Deliveries(t: Tables, ds: seq<Delivery>): Tables
    decreases |ds|
  {
    if ds == [] then t else Deliver(Deliveries(t, ds[..|ds| - 1]), ds[|ds| - 1]).0
  }

  predicate SameKey(a: Delivery, b: Delivery) { a.dev.id == b.dev.id && a.k == b.k }

  // The deliveries that remain when every copy after the first is dropped.
  function FirstCopies(ds: seq<Delivery>): seq<Delivery> {
    if ds == [] then []
    else
      var firsts := FirstCopies(ds[..|ds| - 1]);
      var d := ds[|ds| - 1];
      if exists i | 0 <= i < |ds| - 1 :: WellFormed(ds[i]) && SameKey(ds[i], d) then firsts else firsts + [d]
  }

  ghost predicate CallersOk(ds: seq<Delivery>) { forall i :: 0 <= i < |ds| ==> NoColon(ds[i].dev.id) }

  lemma DeliverStores(t: Tables, d: Delivery)
    requires KeysScoped(t) && NoColon(d.dev.id)
    ensures var (t', reply) := Deliver(t, d);
      && KeysScoped(t')
      && (forall x :: x in t.idem ==> x in t'.idem && t'.idem[x] == t.idem[x])
      && (WellFormed(d) ==> ScopedKey(d.dev, d.k) in t'.idem && reply == Replied(t'.idem[ScopedKey(d.dev, d.k)].results))
      && (WellFormed(d) && ScopedKey(d.dev, d.k) in t.idem ==> t' == t)
  {
    var key := ScopedKey(d.dev, d.k);
    CommitKeepsKeys(t, d.dev, d.k, d.items);
    if key in t.idem { KeyIsNeverReused(t, d.dev, d.k); }
  }

  // A delivery whose key is taken changes nothing, valid or not.
  lemma TakenKeyChangesNothing(t: Tables, d: Delivery)
    requires KeysScoped(t) && NoColon(d.dev.id) && ScopedKey(d.dev, d.k) in t.idem
    ensures Deliver(t, d).0 == t
  {
    KeyIsNeverReused(t, d.dev, d.k);
  }

  lemma {:induction false} DeliveriesStore(t: Tables, ds: seq<Delivery>)
    requires KeysScoped(t) && CallersOk(ds)
    ensures var t' := Deliveries(t, ds);
      && KeysScoped(t')
      && forall i :: 0 <= i < |ds| && WellFormed(ds[i]) ==> ScopedKey(ds[i].dev, ds[i].k) in t'.idem
    decreases |ds|
  {
    if ds != [] {
      DeliveriesStore(t, ds[..|ds| - 1]);
      DeliverStores(Deliveries(t, ds[..|ds| - 1]), ds[|ds| - 1]);
    }
  }

  // Exactly once: any history of deliveries, with any copies in any order,
  // ends in the state of its first copies alone.
  lemma {:induction false} ReplaysAreInvisible(t: Tables, ds: seq<Delivery>)
    requires KeysScoped(t) && CallersOk(ds)
    ensures Deliveries(t, ds) == Deliveries(t, FirstCopies(ds))
    decreases |ds|
  {
    hide Deliver, KeysScoped;
    if ds != [] {
      var head := ds[..|ds| - 1];
      var d := ds[|ds| - 1];
      ReplaysAreInvisible(t, head);
      DeliveriesStore(t, head);
      var mid := Deliveries(t, head);
      if i :| 0 <= i < |ds| - 1 && WellFormed(ds[i]) && SameKey(ds[i], d) {
        assert head[i] == ds[i];
        assert ScopedKey(d.dev, d.k) in mid.idem;
        TakenKeyChangesNothing(mid, d);
      } else {
        var firsts := FirstCopies(head);
        assert (firsts + [d])[..|firsts|] == firsts;
      }
    }
  }

  // Every copy gets the answer of the first, whatever arrived in between and
  // whatever items the copy carries.
  lemma {:induction false} CopiesGetTheSameAnswer(t: Tables, first: Delivery, between: seq<Delivery>, copy: Delivery)
    requires KeysScoped(t) && CallersOk([first] + between + [copy])
    requires WellFormed(first) && WellFormed(copy) && SameKey(first, copy)
    ensures Deliver(Deliveries(Deliver(t, first).0, between), copy).1 == Deliver(t, first).1
    decreases |between|
  {
    hide Push, Commit, Deliveries, KeysScoped;
    assert ([first] + between + [copy])[0] == first;
    assert ([first] + between + [copy])[|between| + 1] == copy;
    assert forall i :: 0 <= i < |between| ==> ([first] + between + [copy])[i + 1] == between[i];
    DeliverStores(t, first);
    var key := ScopedKey(first.dev, first.k);
    StoredRowsStay(Deliver(t, first).0, between, key);
    DeliverStores(Deliveries(Deliver(t, first).0, between), copy);
  }

  lemma {:induction false} StoredRowsStay(t: Tables, ds: seq<Delivery>, key: string)
    requires KeysScoped(t) && CallersOk(ds) && key in t.idem
    ensures var t' := Deliveries(t, ds); KeysScoped(t') && key in t'.idem && t'.idem[key] == t.idem[key]
    decreases |ds|
  {
    if ds != [] {
      StoredRowsStay(t, ds[..|ds| - 1], key);
      DeliverStores(Deliveries(t, ds[..|ds| - 1]), ds[|ds| - 1]);
    }
  }

  // A batch of one under a key that is free is that one item.
  lemma SingleItem(t: Tables, dev: Caller, key: string, inp: Input)
    ensures ApplyAll(t, dev, key, [inp]) == (ApplyOne(t, dev, key, inp).0, [ApplyOne(t, dev, key, inp).1])
  {
    hide ApplyOne;
    assert [inp][..0] == [] && [inp][0] == inp;
    assert ApplyAll(t, dev, key, []) == (t, []);
    var r := ApplyOne(t, dev, key, inp).1;
    assert ApplyAll(t, dev, key, [inp]).1 == [] + [r] == [r];
  }

  lemma FreshPush(t: Tables, dev: Caller, k: string, inp: Input)
    requires k != "" && ScopedKey(dev, k) !in t.idem
    ensures var (t1, r) := ApplyOne(t, dev, ScopedKey(dev, k), inp);
      Push(t, dev, k, [inp]) == (t1.(idem := t1.idem[ScopedKey(dev, k) := IdemRow(dev.id, [r])]), Replied([r]))
  {
    hide ApplyAll, ApplyOne;
    SingleItem(t, dev, ScopedKey(dev, k), inp);
  }

  // Exactly the replies a push can get: a key that is taken gets the stored
  // answer, or an error if it is another device's; a first push is carried out,
  // all of its items, and its results are kept for later copies.
  lemma RepliesExactly(t: Tables, dev: Caller, k: string, items: seq<Input>)
    ensures var (t', reply) := Push(t, dev, k, items);
      && (reply == BadBatch <==> |items| == 0 || |items| > 500)
      && (1 <= |items| <= 500 ==> (reply == KeyRequired <==> k == ""))
      && (reply == BadBatch || reply == KeyRequired || reply == KeyReused ==> t' == t)
      && (1 <= |items| <= 500 && k != "" && ScopedKey(dev, k) in t.idem ==>
            var row := t.idem[ScopedKey(dev, k)];
            t' == t && (row.dev == dev.id ==> reply == Replied(row.results)) && (row.dev != dev.id ==> reply == KeyReused))
      && (1 <= |items| <= 500 && k != "" && ScopedKey(dev, k) !in t.idem ==>
            var all := ApplyAll(t, dev, ScopedKey(dev, k), items);
            && reply == Replied(all.1) && |all.1| == |items|
            && t' == all.0.(idem := t'.idem) && t'.idem == all.0.idem[ScopedKey(dev, k) := IdemRow(dev.id, all.1)])
  {
    hide ApplyAll;
  }
}
