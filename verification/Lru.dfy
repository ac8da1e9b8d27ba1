// The byte-bounded cache of thumbnails: a list in order of use and a map into
// it. Entries leave from the back until the rest fits, so the least recently
// used go first.

module Lru {
  import opened Wrappers

  type Bytes = seq<int>

  datatype Entry = Entry(key: string, val: Bytes)

  function Cost(e: Entry): nat { |e.key| + |e.val| + 64 }

  function Total(es: seq<Entry>): nat {
    if es == [] then 0 else Total(es[..|es| - 1]) + Cost(es[|es| - 1])
  }

  predicate DistinctKeys(es: seq<Entry>) { forall i, j :: 0 <= i < j < |es| ==> es[i].key != es[j].key }

  // ---- what the operations mean, on the entries from most to least recent --

  function Find(es: seq<Entry>, key: string): (i: nat)
    ensures i <= |es| && (i < |es| ==> es[i].key == key)
    ensures forall j :: 0 <= j < i ==> es[j].key != key
  {
    if es == [] then 0
    else
      var i := Find(es[..|es| - 1], key);
      if i < |es| - 1 || es[|es| - 1].key == key then i else |es|
  }

  function Without(es: seq<Entry>, key: string): seq<Entry> {
    var i := Find(es, key);
    if i == |es| then es else Removed(es, i)
  }

  function Get(es: seq<Entry>, key: string): (seq<Entry>, Option<Bytes>) {
    var i := Find(es, key);
    if i == |es| then (es, None) else ([es[i]] + Without(es, key), Some(es[i].val))
  }

  // Entries are dropped from the back until the rest fits.
  function Trim(es: seq<Entry>, limit: int): seq<Entry> {
    if es == [] || Total(es) <= limit then es else Trim(es[..|es| - 1], limit)
  }

  function Put(es: seq<Entry>, limit: int, e: Entry): seq<Entry> {
    if Cost(e) > limit then es else Trim([e] + Without(es, e.key), limit)
  }

  // ---- the cache -------------------------------------------------------------

  class Element {
    const entry: Entry

    constructor (entry: Entry)
      ensures this.entry == entry
    {
      this.entry := entry;
    }
  }

  ghost function Entries(order: seq<Element>): (es: seq<Entry>)
    ensures |es| == |order| && forall i :: 0 <= i < |es| ==> es[i] == order[i].entry
  {
    seq(|order|, i requires 0 <= i < |order| => order[i].entry)
  }

  predicate NoRepeats<T(==)>(s: seq<T>) { forall i, j :: 0 <= i < j < |s| ==> s[i] != s[j] }

  // The map and the list hold the same elements, one for each key.
  ghost predicate Linked(order: seq<Element>, items: map<string, Element>) {
    && NoRepeats(order)
    && (forall el :: el in order ==> el.entry.key in items && items[el.entry.key] == el)
    && (forall k :: k in items ==> items[k] in order && items[k].entry.key == k)
  }

  class LruBytes {
    const limit: int
    var used: int
    var order: seq<Element>            // front = most recent
    var items: map<string, Element>

    constructor (limit: int)
      ensures Valid() && Contents() == [] && this.limit == limit
    {
      this.limit, used, order, items := limit, 0, [], map[];
    }

    ghost function Contents(): seq<Entry>
      reads this
    {
      Entries(order)
    }

    // `used` is what the entries cost.
    ghost predicate Consistent()
      reads this
    {
      Linked(order, items) && used == Total(Contents())
    }

    ghost predicate Valid()
      reads this
    {
      Consistent() && (order == [] || used <= limit)
    }

    method Lookup(key: string) returns (val: Option<Bytes>)
      requires Valid()
      modifies `order
      ensures Valid() && (Contents(), val) == Get(old(Contents()), key)
    {
      hide Linked, Total, Entries, Find, Removed, Without;
      if key !in items {
        NotLinked(order, items, key);
        return None;
      }
      var el := items[key];
      LinkedItem(order, items, key);
      var i := Position(order, el);
      LinkedToFront(order, items, i);
      order := [el] + Removed(order, i);
      return Some(el.entry.val);
    }

    // The element of a key leaves the list; `used` goes down with it.
    method Remove(key: string)
      requires Consistent()
      modifies `used, `order, `items
      ensures Consistent() && Contents() == Without(old(Contents()), key) && key !in items
    {
      hide Linked, Total, Entries, Find, Removed;
      if key in items {
        var el := items[key];
        LinkedItem(order, items, key);
        var i := Position(order, el);
        LinkedRemove(order, items, i);
        used := used - Cost(el.entry);
        order := Removed(order, i);
        items := items - {key};
      } else {
        NotLinked(order, items, key);
      }
    }

    method Insert(key: string, val: Bytes)
      requires Valid()
      modifies this
      ensures Valid() && Contents() == Put(old(Contents()), limit, Entry(key, val))
    {
      hide Linked, Total, Entries, Find, Removed, Trim, Without;
      var e := new Element(Entry(key, val));
      if Cost(e.entry) > limit { return; }
      Remove(key);
      LinkedInsert(order, items, e);
      order := [e] + order;
      items := items[key := e];
      used := used + Cost(e.entry);
      Evict(e);
    }

    // The loop of put: while the cache is over its limit, the last entry goes.
    // The list cannot run out, as its first entry alone fits.
    method Evict(e: Element)
      requires Consistent() && order != [] && order[0] == e && Cost(e.entry) <= limit
      modifies `used, `order, `items
      ensures Valid() && Contents() == Trim(old(Contents()), limit)
    {
      hide Linked, Total, Entries;
      while used > limit
        invariant Consistent() && order != [] && order[0] == e
        invariant Trim(Contents(), limit) == Trim(old(Contents()), limit)
        decreases |order|
      {
        OneEntryCosts(order);
        TrimStep(Contents(), limit);
        DropBack();
      }
      TrimStops(Contents(), limit);
    }

    // Back() exists whenever the cache is over its limit.
    method DropBack()
      requires Consistent() && order != []
      modifies `used, `order, `items
      ensures Consistent() && Contents() == old(Contents())[..|old(Contents())| - 1] && order == old(order)[..|old(order)| - 1]
    {
      hide Linked, Total, Entries;
      LinkedDropBack(order, items);
      var el := order[|order| - 1];
      order := order[..|order| - 1];
      items := items - {el.entry.key};
      used := used - Cost(el.entry);
    }
  }

  // Where an element stands in the list.
  function Position(order: seq<Element>, el: Element): (i: nat)
    requires el in order
    ensures i < |order| && order[i] == el
  {
    if order[0] == el then 0 else 1 + Position(order[1..], el)
  }

  // ---- what one change does to the list and the map ----------------------------

  function Removed<T>(s: seq<T>, i: nat): seq<T>
    requires i < |s|
  {
    s[..i] + s[i + 1..]
  }

  lemma RemovedHasNone<T>(s: seq<T>, i: nat)
    requires NoRepeats(s) && i < |s|
    ensures NoRepeats(Removed(s, i)) && forall x :: x in Removed(s, i) <==> x in s && x != s[i]
  {
    var r := Removed(s, i);
    assert forall k :: 0 <= k < |r| ==> r[k] == s[if k < i then k else k + 1];
    forall x | x in s && x != s[i] ensures x in r {
      var j :| 0 <= j < |s| && s[j] == x;
      assert x == r[if j < i then j else j - 1];
    }
  }

  lemma KeysDistinct(order: seq<Element>, items: map<string, Element>)
    requires Linked(order, items)
    ensures DistinctKeys(Entries(order))
  {
    forall i, j | 0 <= i < j < |order| ensures order[i].entry.key != order[j].entry.key {
      assert order[i] in order && order[j] in order;
    }
  }

  lemma LinkedItem(order: seq<Element>, items: map<string, Element>, key: string)
    requires Linked(order, items) && key in items
    ensures items[key] in order && items[key].entry.key == key
  {}

  lemma OneEntryCosts(order: seq<Element>)
    requires order != []
    ensures |order| == 1 ==> Total(Entries(order)) == Cost(order[0].entry)
    ensures Entries(order) != []
  {
    OneCosts(order[0].entry);
    assert |order| == 1 ==> Entries(order) == [order[0].entry];
  }

  lemma OneCosts(e: Entry)
    ensures Total([e]) == Cost(e)
  {
    assert [e][..0] == [];
  }

  lemma TrimStep(es: seq<Entry>, limit: int)
    requires es != [] && Total(es) > limit
    ensures Trim(es, limit) == Trim(es[..|es| - 1], limit)
  {}

  lemma TrimStops(es: seq<Entry>, limit: int)
    requires Total(es) <= limit
    ensures Trim(es, limit) == es
  {}

  lemma NotLinked(order: seq<Element>, items: map<string, Element>, key: string)
    requires Linked(order, items) && key !in items
    ensures Find(Entries(order), key) == |order|
  {
    forall j | 0 <= j < |order| ensures Entries(order)[j].key != key { assert order[j] in order; }
  }

  lemma FoundAt(order: seq<Element>, items: map<string, Element>, i: nat)
    requires Linked(order, items) && i < |order|
    ensures Find(Entries(order), order[i].entry.key) == i
  {
    KeysDistinct(order, items);
    var j := Find(Entries(order), order[i].entry.key);
    assert j <= i;
  }

  lemma RemovedEntries(order: seq<Element>, i: nat)
    requires i < |order|
    ensures Entries(Removed(order, i)) == Removed(Entries(order), i)
  {}

  lemma AddedEntries(el: Element, order: seq<Element>)
    ensures Entries([el] + order) == [el.entry] + Entries(order)
  {}

  lemma RemovedStaysLinked(order: seq<Element>, items: map<string, Element>, i: nat)
    requires Linked(order, items) && i < |order|
    ensures Linked(Removed(order, i), items - {order[i].entry.key})
  {
    RemovedHasNone(order, i);
    hide Removed, NoRepeats;
    assert order[i] in order;
  }

  lemma LinkedRemove(order: seq<Element>, items: map<string, Element>, i: nat)
    requires Linked(order, items) && i < |order|
    ensures var order' := Removed(order, i);
      && Linked(order', items - {order[i].entry.key})
      && Entries(order') == Without(Entries(order), order[i].entry.key)
      && Total(Entries(order')) == Total(Entries(order)) - Cost(order[i].entry)
  {
    hide Total, Find, Removed, Linked;
    FoundAt(order, items, i);
    RemovedEntries(order, i);
    TotalRemove(Entries(order), i);
    RemovedStaysLinked(order, items, i);
  }

  lemma LinkedInsert(order: seq<Element>, items: map<string, Element>, el: Element)
    requires Linked(order, items) && el.entry.key !in items
    ensures Linked([el] + order, items[el.entry.key := el])
    ensures Entries([el] + order) == [el.entry] + Entries(order)
    ensures Total(Entries([el] + order)) == Total(Entries(order)) + Cost(el.entry)
  {
    TotalFront(el.entry, Entries(order));
    AddedEntries(el, order);
    assert el !in order;
  }

  lemma LinkedToFront(order: seq<Element>, items: map<string, Element>, i: nat)
    requires Linked(order, items) && i < |order|
    ensures var order' := [order[i]] + Removed(order, i);
      && Linked(order', items) && Total(Entries(order')) == Total(Entries(order))
      && Get(Entries(order), order[i].entry.key) == (Entries(order'), Some(order[i].entry.val))
  {
    hide Total, Removed, Find, NoRepeats, Entries;
    var el := order[i];
    FoundAt(order, items, i);
    LinkedRemove(order, items, i);
    LinkedInsert(Removed(order, i), items - {el.entry.key}, el);
    assert el in order;
    assert (items - {el.entry.key})[el.entry.key := el] == items;
  }

  lemma LinkedDropBack(order: seq<Element>, items: map<string, Element>)
    requires Linked(order, items) && order != []
    ensures var order' := order[..|order| - 1];
      && Linked(order', items - {order[|order| - 1].entry.key})
      && Entries(order') == Entries(order)[..|order| - 1]
      && Total(Entries(order')) == Total(Entries(order)) - Cost(order[|order| - 1].entry)
  {
    LinkedRemove(order, items, |order| - 1);
    assert Removed(order, |order| - 1) == order[..|order| - 1];
  }

  lemma {:induction false} TotalConcat(a: seq<Entry>, b: seq<Entry>)
    ensures Total(a + b) == Total(a) + Total(b)
  {
    if b == [] {
      assert a + b == a;
    } else {
      assert (a + b)[..|a + b| - 1] == a + b[..|b| - 1];
      TotalConcat(a, b[..|b| - 1]);
    }
  }

  lemma TotalFront(e: Entry, es: seq<Entry>)
    ensures Total([e] + es) == Cost(e) + Total(es)
  {
    TotalConcat([e], es);
    OneCosts(e);
  }

  lemma TotalRemove(es: seq<Entry>, i: nat)
    requires i < |es|
    ensures Total(es) == Cost(es[i]) + Total(Removed(es, i))
  {
    hide Total;
    TotalConcat(es[..i], es[i..]);
    assert es[..i] + es[i..] == es;
    TotalFront(es[i], es[i + 1..]);
    assert [es[i]] + es[i + 1..] == es[i..];
    TotalConcat(es[..i], es[i + 1..]);
  }

  // The newest entry always survives: alone, it fits.
  lemma {:induction false} TrimKeepsFirst(es: seq<Entry>, limit: int)
    requires es != [] && Cost(es[0]) <= limit
    ensures Trim(es, limit) != [] && Trim(es, limit)[0] == es[0]
  {
    OneCosts(es[0]);
    assert |es| == 1 ==> es == [es[0]];
    if Total(es) > limit { TrimKeepsFirst(es[..|es| - 1], limit); }
  }

  // What is kept is the longest part of the recency order that fits.
  lemma {:induction false} TrimIsLongest(es: seq<Entry>, limit: int)
    ensures var kept := Trim(es, limit);
      && kept <= es && (kept == [] || Total(kept) <= limit)
      && forall n :: |kept| < n <= |es| ==> Total(es[..n]) > limit
  {
    if es != [] && Total(es) > limit {
      TrimIsLongest(es[..|es| - 1], limit);
      var kept := Trim(es, limit);
      forall n | |kept| < n <= |es| ensures Total(es[..n]) > limit {
        assert es[..n] == if n == |es| then es else es[..|es| - 1][..n];
      }
    }
  }

  // ---- runs ----------------------------------------------------------------

  datatype Op = Use(key: string) | Store(e: Entry)

  // What the cache holds after a run.
  ghost function Held(ops: seq<Op>, limit: int): seq<Entry> {
    if ops == [] then []
    else
      var es := Held(ops[..|ops| - 1], limit);
      match ops[|ops| - 1]
      case Use(key) => Get(es, key).0
      case Store(e) => Put(es, limit, e)
  }

  ghost function Keys(es: seq<Entry>): set<string> { set i | 0 <= i < |es| :: es[i].key }

  // The value of the last put of a key that fit at all.
  ghost function LastPut(ops: seq<Op>, limit: int, key: string): Option<Bytes> {
    if ops == [] then None
    else
      var op := ops[|ops| - 1];
      if op.Store? && op.e.key == key && Cost(op.e) <= limit then Some(op.e.val) else LastPut(ops[..|ops| - 1], limit, key)
  }

  // An operation uses a key by putting it, if it fits, or by getting it, if
  // it is held.
  ghost predicate Uses(es: seq<Entry>, limit: int, op: Op, key: string) {
    match op
    case Use(k) => k == key && key in Keys(es)
    case Store(e) => e.key == key && Cost(e) <= limit
  }

  // When a key was last used, counted from 1; 0 if never.
  ghost function LastUse(ops: seq<Op>, limit: int, key: string): (n: nat)
    ensures n <= |ops|
  {
    if ops == [] then 0
    else if Uses(Held(ops[..|ops| - 1], limit), limit, ops[|ops| - 1], key) then |ops|
    else LastUse(ops[..|ops| - 1], limit, key)
  }

  // Most recently used first, and every key not held was used before them all.
  ghost predicate Descending(es: seq<Entry>, last: string -> nat) {
    forall i, j :: 0 <= i < j < |es| ==> last(es[i].key) > last(es[j].key)
  }

  ghost predicate OthersOlder(es: seq<Entry>, keys: set<string>, last: string -> nat) {
    forall k, i :: 0 <= i < |es| && k !in keys ==> last(k) < last(es[i].key)
  }

  ghost predicate ByRecency(es: seq<Entry>, last: string -> nat) {
    Descending(es, last) && OthersOlder(es, Keys(es), last)
  }

  lemma PrefixByRecency(es: seq<Entry>, n: nat, last: string -> nat)
    requires ByRecency(es, last) && n <= |es|
    ensures ByRecency(es[..n], last)
  {
    forall k, i | 0 <= i < n && k !in Keys(es[..n]) ensures last(k) < last(es[i].key) {
      assert forall m :: 0 <= m < n ==> es[..n][m].key == es[m].key;
      assert k in Keys(es) ==> exists m :: n <= m < |es| && es[m].key == k;
    }
  }

  lemma RemovedDescends(es: seq<Entry>, i: nat, last: string -> nat)
    requires i < |es| && Descending(es, last)
    ensures Descending(Removed(es, i), last)
  {
    var r := Removed(es, i);
    assert forall m :: 0 <= m < |r| ==> r[m] == es[if m < i then m else m + 1];
  }

  lemma RemovedKeys(es: seq<Entry>, i: nat)
    requires i < |es| && forall j :: 0 <= j < |es| && j != i ==> es[j].key != es[i].key
    ensures Keys(Removed(es, i)) == Keys(es) - {es[i].key}
  {
    var r := Removed(es, i);
    forall m | 0 <= m < |r| ensures r[m].key in Keys(es) - {es[i].key} {
      assert r[m] == es[if m < i then m else m + 1];
    }
    forall j | 0 <= j < |es| && j != i ensures es[j].key in Keys(r) {
      assert es[j] == r[if j < i then j else j - 1];
    }
  }

  // What is left in place when a key is taken out.
  lemma WithoutByRecency(es: seq<Entry>, key: string, last: string -> nat)
    requires ByRecency(es, last)
    ensures var r := Without(es, key);
      Descending(r, last) && Keys(r) == Keys(es) - {key} && OthersOlder(r, Keys(es), last)
  {
    hide Find, Removed, OthersOlder;
    KeyFound(es);
    var i := Find(es, key);
    if i < |es| {
      RemovedDescends(es, i, last);
      RemovedKeys(es, i);
      RemovedOlder(es, i, Keys(es), last);
    } else {
      assert key !in Keys(es);
    }
  }

  lemma RemovedOlder(es: seq<Entry>, i: nat, keys: set<string>, last: string -> nat)
    requires i < |es| && OthersOlder(es, keys, last)
    ensures OthersOlder(Removed(es, i), keys, last)
  {
    var r := Removed(es, i);
    forall m | 0 <= m < |r| ensures r[m] == es[if m < i then m else m + 1] {}
  }

  // An entry whose key was just used goes to the front.
  lemma FrontByRecency(e: Entry, r: seq<Entry>, keys: set<string>, last: string -> nat, last': string -> nat)
    requires Descending(r, last) && Keys(r) == keys - {e.key} && OthersOlder(r, keys, last)
    requires forall k :: k != e.key ==> last'(k) == last(k) < last'(e.key)
    ensures ByRecency([e] + r, last')
  {
    var full := [e] + r;
    assert full[0] == e && forall m :: 1 <= m < |full| ==> full[m] == r[m - 1];
    forall m | 0 <= m < |r| ensures last'(r[m].key) == last(r[m].key) {
      assert r[m].key in Keys(r);
    }
    FrontKeys(e, r);
    hide Keys;
  }

  lemma FrontKeys(e: Entry, r: seq<Entry>)
    ensures Keys([e] + r) == {e.key} + Keys(r)
  {
    var full := [e] + r;
    assert full[0] == e;
    forall m | 0 <= m < |r| ensures r[m].key in Keys(full) { assert full[m + 1] == r[m]; }
  }

  lemma UseByRecency(es: seq<Entry>, e: Entry, last: string -> nat, last': string -> nat)
    requires ByRecency(es, last)
    requires forall k :: k != e.key ==> last'(k) == last(k) < last'(e.key)
    ensures ByRecency([e] + Without(es, e.key), last')
  {
    hide Without, Keys, Descending, OthersOlder;
    WithoutByRecency(es, e.key, last);
    FrontByRecency(e, Without(es, e.key), Keys(es), last, last');
  }

  lemma TrimByRecency(es: seq<Entry>, limit: int, last: string -> nat)
    requires ByRecency(es, last)
    ensures ByRecency(Trim(es, limit), last)
  {
    hide Trim, ByRecency;
    TrimIsLongest(es, limit);
    PrefixByRecency(es, |Trim(es, limit)|, last);
    assert Trim(es, limit) == es[..|Trim(es, limit)|];
  }

  // After any run the cache lists its entries by last use, and nothing that
  // has left it was used later than anything it holds.
  lemma {:induction false} HeldByRecency(ops: seq<Op>, limit: int)
    ensures ByRecency(Held(ops, limit), k => LastUse(ops, limit, k))
  {
    if ops != [] {
      var front, op := ops[..|ops| - 1], ops[|ops| - 1];
      HeldByRecency(front, limit);
      var es := Held(front, limit);
      var last := k => LastUse(front, limit, k);
      var last' := k => LastUse(ops, limit, k);
      KeyFound(es);
      hide ByRecency, Without, Trim, Keys, Find;
      if op.Store? && Cost(op.e) <= limit {
        UseByRecency(es, op.e, last, last');
        TrimByRecency([op.e] + Without(es, op.e.key), limit, last');
      } else if op.Use? && op.key in Keys(es) {
        UseByRecency(es, es[Find(es, op.key)], last, last');
      } else {
        SameRecency(es, last, last');
      }
    }
  }

  lemma KeyFound(es: seq<Entry>)
    ensures forall k :: k in Keys(es) <==> Find(es, k) < |es|
    ensures forall k :: Find(es, k) < |es| ==> es[Find(es, k)].key == k
  {}

  lemma SameRecency(es: seq<Entry>, last: string -> nat, last': string -> nat)
    requires ByRecency(es, last) && forall k :: last'(k) == last(k)
    ensures ByRecency(es, last')
  {}

  lemma GetMembers(es: seq<Entry>, key: string)
    ensures forall x :: x in Get(es, key).0 ==> x in es
    ensures Total(Get(es, key).0) == Total(es)
  {
    hide Total, Find;
    var i := Find(es, key);
    if i < |es| {
      TotalRemove(es, i);
      TotalFront(es[i], Removed(es, i));
    }
  }

  lemma WithoutMembers(es: seq<Entry>, key: string, last: string -> nat)
    requires ByRecency(es, last)
    ensures forall x :: x in Without(es, key) ==> x in es && x.key != key
  {
    hide ByRecency, Descending, OthersOlder, Find;
    var r := Without(es, key);
    WithoutByRecency(es, key, last);
    forall x | x in r ensures x in es && x.key != key {
      assert x.key in Keys(r);
    }
  }

  lemma PutMembers(es: seq<Entry>, limit: int, e: Entry, last: string -> nat)
    requires ByRecency(es, last) && Cost(e) <= limit
    ensures forall x :: x in Put(es, limit, e) ==> x == e || (x in es && x.key != e.key)
  {
    hide Without, ByRecency, Trim;
    var full := [e] + Without(es, e.key);
    WithoutMembers(es, e.key, last);
    TrimIsLongest(full, limit);
    assert forall x :: x in Trim(full, limit) ==> x in full;
  }

  // Every value held is the one of the last put of its key that fit.
  lemma {:induction false} HeldIsLastPut(ops: seq<Op>, limit: int)
    ensures forall e :: e in Held(ops, limit) ==> LastPut(ops, limit, e.key) == Some(e.val)
  {
    if ops != [] {
      var front, op := ops[..|ops| - 1], ops[|ops| - 1];
      HeldIsLastPut(front, limit);
      var es := Held(front, limit);
      if op.Use? {
        GetMembers(es, op.key);
      } else if Cost(op.e) <= limit {
        HeldByRecency(front, limit);
        PutMembers(es, limit, op.e, k => LastUse(front, limit, k));
      }
      hide Get, Put, ByRecency;
    }
  }

  // The cache never costs more than its limit.
  lemma {:induction false} HeldFits(ops: seq<Op>, limit: int)
    ensures Held(ops, limit) == [] || Total(Held(ops, limit)) <= limit
  {
    hide Total, Trim, Without, Find;
    if ops != [] {
      var front, op := ops[..|ops| - 1], ops[|ops| - 1];
      HeldFits(front, limit);
      var es := Held(front, limit);
      if op.Use? {
        GetMembers(es, op.key);
        assert es == [] ==> Get(es, op.key).0 == [];
      } else {
        TrimIsLongest([op.e] + Without(es, op.e.key), limit);
      }
    }
  }

  // A put that fits is found by the next get, whatever was held before; one that
  // does not fit leaves every key as it was.
  lemma PutIsFound(es: seq<Entry>, limit: int, e: Entry)
    ensures |e.key| + |e.val| + 64 <= limit ==> Get(Put(es, limit, e), e.key).1 == Some(e.val)
    ensures |e.key| + |e.val| + 64 > limit ==> Put(es, limit, e) == es
  {
    hide Without;
    if Cost(e) <= limit {
      var full := [e] + Without(es, e.key);
      TrimKeepsFirst(full, limit);
      FirstIsFound(Trim(full, limit), e.key);
    }
  }

  lemma FirstIsFound(es: seq<Entry>, key: string)
    requires es != [] && es[0].key == key
    ensures Get(es, key).1 == Some(es[0].val)
  {
    hide Without;
    var i := Find(es, key);
    FindsSome(es, key, 0);
  }

  lemma {:induction false} FindsSome(es: seq<Entry>, key: string, j: nat)
    requires j < |es| && es[j].key == key
    ensures Find(es, key) <= j
  {
    if j < |es| - 1 { FindsSome(es[..|es| - 1], key, j); }
  }
}
