// Deleting a collection tree: which collections it reaches, and what is left.

module Tree {
  import opened Wrappers
  import opened Model
  import opened Access
  import opened PushSpec
  import opened Sums
  import opened Writes
  import opened Refs
  import opened Quota
  import opened Forest
  import opened Server
  import opened Outcomes
  import opened Idempotency

  predicate LiveOfKind(cols: Collections, kind: string, c: Id) {
    c in cols && !cols[c].deleted && cols[c].kind == kind
  }

  // x reaches top in n steps over live collections of the kind.
  ghost predicate LiveChain(cols: Collections, top: Id, kind: string, x: Id, n: nat) {
    Up(cols, x, n) == top && forall i: nat :: i < n ==> LiveOfKind(cols, kind, Up(cols, x, i))
  }

  // top itself, or a descendant reached by live child links of the kind.
  ghost predicate InTree(cols: Collections, top: Id, kind: string, x: Id) {
    exists n: nat :: LiveChain(cols, top, kind, x, n)
  }

  ghost function TreeOf(cols: Collections, top: Id, kind: string): set<Id> {
    set x | x in cols && InTree(cols, top, kind, x)
  }

  function Children(cols: Collections, kind: string, parent: Id): set<Id> {
    set c | c in cols && LiveOfKind(cols, kind, c) && cols[c].parent == parent
  }

  function Buried(o: Object, dev: Id): Object { o.(rev := o.rev + 1, deleted := true, origin := dev) }

  function ObjectAfter(o: Object, gone: set<Id>, dev: Id): Object {
    if !o.deleted && o.col in gone then Buried(o, dev) else o
  }

  function CollectionAfter(c: Collection, gone: bool): Collection {
    if gone then c.(deleted := true, rev := c.rev + 1) else c
  }

  // The collections in gone are tombstoned and empty of live objects; nothing
  // else about collections, objects and shares has changed.
  ghost predicate TreeGone(t0: Tables, t: Tables, gone: set<Id>, dev: Id) {
    && t.objects.Keys == t0.objects.Keys
    && (forall o :: o in t0.objects ==> t.objects[o] == ObjectAfter(t0.objects[o], gone, dev))
    && t.collections.Keys == t0.collections.Keys
    && (forall c :: c in t0.collections ==> t.collections[c] == CollectionAfter(t0.collections[c], c in gone))
    && t.shares == (map k | k in t0.shares && k.col !in gone :: t0.shares[k])
    && t.blobRefs == t0.blobRefs && t.files == t0.files && t.blobs.Keys == t0.blobs.Keys
    && t.users == t0.users && t.members == t0.members && t.devices == t0.devices && t.acks == t0.acks
    && (forall k :: k in t0.idem ==> k in t.idem && t.idem[k] == t0.idem[k])
  }

  // ---- trees ---------------------------------------------------------------

  lemma ParentStep(cols: Collections, x: Id)
    requires x in cols
    ensures Up(cols, x, 0) == x && Up(cols, x, 1) == cols[x].parent
  {}

  // A tree is its top and the trees of its children.
  lemma TreeSplits(cols: Collections, top: Id, kind: string, x: Id)
    requires top in cols && x in cols
    ensures InTree(cols, top, kind, x) <==> x == top || exists c :: c in Children(cols, kind, top) && InTree(cols, c, kind, x)
  {
    ParentStep(cols, x);
    if x == top { assert LiveChain(cols, top, kind, x, 0); }
    if n: nat :| LiveChain(cols, top, kind, x, n) && x != top {
      var c := Up(cols, x, n - 1);
      assert LiveOfKind(cols, kind, c);
      assert LiveChain(cols, c, kind, x, n - 1);
      assert c in Children(cols, kind, top);
    }
    if c :| c in Children(cols, kind, top) && InTree(cols, c, kind, x) {
      var n: nat :| LiveChain(cols, c, kind, x, n);
      assert LiveChain(cols, top, kind, x, n + 1);
    }
  }

  // The trees of two children of one collection do not meet.
  lemma SiblingsAreDisjoint(cols: Collections, top: Id, kind: string, a: Id, b: Id, x: Id)
    requires "" !in cols && Acyclic(cols) && a in Children(cols, kind, top) && b in Children(cols, kind, top) && a != b
    requires InTree(cols, a, kind, x)
    ensures !InTree(cols, b, kind, x)
  {
    var rank :| Ranked(cols, rank);
    var n: nat :| LiveChain(cols, a, kind, x, n);
    forall m: nat ensures !LiveChain(cols, b, kind, x, m) {
      if n <= m { SiblingAbove(cols, rank, top, kind, a, b, x, n, m); }
      else if LiveChain(cols, b, kind, x, m) { SiblingAbove(cols, rank, top, kind, b, a, x, m, n); }
    }
  }

  lemma SiblingAbove(cols: Collections, rank: map<Id, nat>, top: Id, kind: string, a: Id, b: Id, x: Id, n: nat, m: nat)
    requires "" !in cols && Ranked(cols, rank) && a in Children(cols, kind, top) && b in Children(cols, kind, top) && a != b
    requires LiveChain(cols, a, kind, x, n) && n <= m
    ensures !LiveChain(cols, b, kind, x, m)
  {
    if LiveChain(cols, b, kind, x, m) {
      ParentStep(cols, a);
      UpAdd(cols, x, n, m - n);
      UpAdd(cols, a, 1, m - n - 1);
      forall i: nat | i <= m - n ensures Up(cols, a, i) in cols {
        UpAdd(cols, x, n, i);
      }
      forall i: nat | i <= m - n - 1 ensures Up(cols, top, i) in cols { UpAdd(cols, a, 1, i); }
      ChainRanks(cols, rank, top, m - n - 1);
    }
  }

  // Tombstoning collections outside a tree does not change the tree.
  lemma TreeUnchanged(t0: Tables, t: Tables, gone: set<Id>, dev: Id, top: Id, kind: string)
    requires TreeGone(t0, t, gone, dev) && top in t0.collections
    requires forall x :: x in gone ==> !InTree(t0.collections, top, kind, x)
    ensures TreeOf(t.collections, top, kind) == TreeOf(t0.collections, top, kind)
  {
    forall x, n: nat ensures Up(t.collections, x, n) == Up(t0.collections, x, n) { SameUp(t0.collections, t.collections, x, n); }
    forall x | x in t0.collections ensures InTree(t.collections, top, kind, x) <==> InTree(t0.collections, top, kind, x) {
      if n: nat :| LiveChain(t.collections, top, kind, x, n) {
        assert LiveChain(t0.collections, top, kind, x, n);
      }
      if n: nat :| LiveChain(t0.collections, top, kind, x, n) {
        forall i: nat | i < n ensures LiveOfKind(t.collections, kind, Up(t.collections, x, i)) {
          SuffixChain(t0.collections, top, kind, x, n, i);
        }
        assert LiveChain(t.collections, top, kind, x, n);
      }
    }
  }

  lemma SuffixChain(cols: Collections, top: Id, kind: string, x: Id, n: nat, i: nat)
    requires LiveChain(cols, top, kind, x, n) && i <= n
    ensures InTree(cols, top, kind, Up(cols, x, i))
  {
    var y := Up(cols, x, i);
    forall k: nat | k <= n - i ensures Up(cols, y, k) == Up(cols, x, i + k) { UpAdd(cols, x, i, k); }
    assert LiveChain(cols, top, kind, y, n - i);
  }

  lemma {:induction false} SameUp(c0: Collections, c1: Collections, x: Id, n: nat)
    requires c1.Keys == c0.Keys && forall c :: c in c0 ==> c1[c].parent == c0[c].parent
    ensures Up(c1, x, n) == Up(c0, x, n)
  {
    if n > 0 { SameUp(c0, c1, x, n - 1); }
  }

  // ---- composing steps -------------------------------------------------------

  lemma TreeGoneStart(t: Tables, dev: Id)
    ensures TreeGone(t, t, {}, dev)
  {}

  // A further tree, tombstoned later, adds its collections.
  lemma TreeGoneJoins(t0: Tables, t1: Tables, t2: Tables, g1: set<Id>, g2: set<Id>, dev: Id)
    requires TreeGone(t0, t1, g1, dev) && TreeGone(t1, t2, g2, dev) && g1 !! g2
    ensures TreeGone(t0, t2, g1 + g2, dev)
  {
    assert t2.shares == (map k | k in t0.shares && k.col !in g1 + g2 :: t0.shares[k]);
  }

  // ListObjects.
  function LiveIn(objects: map<Id, Object>, col: Id): set<Id> {
    set o | o in objects && !objects[o].deleted && objects[o].col == col
  }

  // Live objects of one collection, some already deleted.
  ghost predicate Emptying(t0: Tables, t: Tables, done: set<Id>, dev: Id) {
    && t == t0.(objects := t.objects, journal := t.journal, lastSeq := t.lastSeq, blobs := t.blobs, idem := t.idem)
    && t.blobs.Keys == t0.blobs.Keys
    && t.objects.Keys == t0.objects.Keys
    && (forall o :: o in t0.objects ==> t.objects[o] == (if o in done then Buried(t0.objects[o], dev) else t0.objects[o]))
    && (forall k :: k in t0.idem ==> k in t.idem && t.idem[k] == t0.idem[k])
  }

  // An accepted delete buries a live object and touches no other.
  lemma DeleteBuries(t: Tables, dev: Caller, key: string, inp: Input)
    requires inp.op == Delete && inp.oid in t.objects && !t.objects[inp.oid].deleted
    requires ApplyOne(t, dev, key, inp).1.status == Ok
    ensures var t' := ApplyOne(t, dev, key, inp).0;
      && t'.objects == t.objects[inp.oid := Buried(t.objects[inp.oid], dev.id)]
      && t' == t.(objects := t'.objects, journal := t'.journal, lastSeq := t'.lastSeq, blobs := t'.blobs)
      && t'.blobs.Keys == t.blobs.Keys
  {
    hide MoveRefs;
    var d := Decide(t, dev, inp);
    assert d == DecideDelete(t, dev, inp) by { hide AccessFor, ValidId, MirrorReadOnly; }
    hide Decide;
    MoveRefsKeys(t.blobs, Row(t, inp.oid), Some(Buried(t.objects[inp.oid], dev.id)));
  }

  lemma EmptiedObjects(t0: Tables, t: Tables, col: Id, done: set<Id>, dev: Id)
    requires Emptying(t0, t, done, dev)
    requires forall o :: o in t0.objects ==> (o in done <==> !t0.objects[o].deleted && t0.objects[o].col == col)
    ensures forall o :: o in t0.objects ==> t.objects[o] == ObjectAfter(t0.objects[o], {col}, dev)
  {}

  lemma TombstoneShape(t: Tables, col: Id)
    requires col in t.collections && !t.collections[col].deleted
    ensures var t' := Tombstone(t, col);
      && t' == t.(collections := t'.collections, shares := t'.shares)
      && t'.shares == (map k | k in t.shares && k.col != col :: t.shares[k])
      && t'.collections.Keys == t.collections.Keys
      && forall c :: c in t.collections ==> t'.collections[c] == CollectionAfter(t.collections[c], c == col)
  {}

  // Once a collection is empty, tombstoning it completes its part.
  lemma TombstoneCompletes(t0: Tables, t: Tables, col: Id, done: set<Id>, dev: Id)
    requires Emptying(t0, t, done, dev) && col in t.collections && !t.collections[col].deleted
    requires forall o :: o in t0.objects ==> (o in done <==> !t0.objects[o].deleted && t0.objects[o].col == col)
    ensures TreeGone(t0, Tombstone(t, col), {col}, dev)
  {
    hide ObjectAfter, Buried, Tombstone;
    EmptiedObjects(t0, t, col, done, dev);
    TombstoneShape(t, col);
    assert Tombstone(t, col).shares == (map k | k in t0.shares && k.col !in {col} :: t0.shares[k]);
  }

  // All that one forced, accepted delete does.
  ghost predicate OneBuried(t1: Tables, t2: Tables, o: Id, dev: Id) {
    && o in t1.objects && t2.objects == t1.objects[o := Buried(t1.objects[o], dev)] && t2.blobs.Keys == t1.blobs.Keys
    && t2 == t1.(objects := t2.objects, journal := t2.journal, lastSeq := t2.lastSeq, blobs := t2.blobs, idem := t2.idem)
    && (forall k :: k in t1.idem ==> k in t2.idem && t2.idem[k] == t1.idem[k])
  }

  lemma ForcedDelete(t: Tables, dev: Caller, key: string, inp: Input)
    requires inp.op == Delete && inp.oid in t.objects && !t.objects[inp.oid].deleted && key !in t.idem
    ensures var (t1, r) := ApplyOne(t, dev, key, inp);
      r.status == Ok ==> OneBuried(t, t1.(idem := t1.idem[key := IdemRow(dev.id, [r])]), inp.oid, dev.id)
  {
    hide ApplyOne;
    if ApplyOne(t, dev, key, inp).1.status == Ok { DeleteBuries(t, dev, key, inp); }
  }

  lemma BuriesOneMore(t: Tables, t1: Tables, t2: Tables, done: set<Id>, o: Id, dev: Id)
    requires Emptying(t, t1, done, dev) && o in t.objects && o !in done && OneBuried(t1, t2, o, dev)
    ensures Emptying(t, t2, done + {o}, dev)
  {}

  lemma NoTrees(t: Tables, none: set<Id>, kind: string, dev: Id)
    requires none == {}
    ensures TreeGone(t, t, Trees(t.collections, none, kind), dev)
  {
    assert Trees(t.collections, none, kind) == {};
    TreeGoneStart(t, dev);
  }

  // The trees of several collections.
  ghost function Trees(cols: Collections, tops: set<Id>, kind: string): set<Id> {
    set x | x in cols && exists c :: c in tops && InTree(cols, c, kind, x)
  }

  // The next child can be deleted: its own tree is still as it was.
  lemma ChildIsReady(t0: Tables, t1: Tables, dev: Id, rank: map<Id, nat>, col: Id, kind: string, children: set<Id>, done: set<Id>, c: Id)
    requires LinksInv(t0.collections) && Ranked(t0.collections, rank) && col in t0.collections
    requires children == Children(t0.collections, kind, col) && done <= children && c in children - done
    requires TreeGone(t0, t1, Trees(t0.collections, done, kind), dev)
    ensures c in t1.collections && t1.collections[c].kind == kind && Ranked(t1.collections, rank) && rank[col] < rank[c]
    ensures TreeOf(t1.collections, c, kind) == TreeOf(t0.collections, c, kind)
  {
    hide InTree;
    forall x | x in Trees(t0.collections, done, kind) ensures !InTree(t0.collections, c, kind, x) {
      var b :| b in done && InTree(t0.collections, b, kind, x);
      SiblingsAreDisjoint(t0.collections, col, kind, b, c, x);
    }
    TreeUnchanged(t0, t1, Trees(t0.collections, done, kind), dev, c, kind);
  }

  lemma OneMoreTree(cols: Collections, done: set<Id>, c: Id, kind: string)
    ensures Trees(cols, done + {c}, kind) == Trees(cols, done, kind) + TreeOf(cols, c, kind)
  {
    hide InTree;
  }

  lemma TreesAreDisjoint(cols: Collections, col: Id, kind: string, done: set<Id>, c: Id)
    requires LinksInv(cols) && done <= Children(cols, kind, col) && c in Children(cols, kind, col) - done
    ensures Trees(cols, done, kind) !! TreeOf(cols, c, kind)
  {
    hide InTree, Acyclic, OwnersAgree;
    forall x | x in Trees(cols, done, kind) ensures x !in TreeOf(cols, c, kind) {
      var b :| b in done && InTree(cols, b, kind, x);
      SiblingsAreDisjoint(cols, col, kind, b, c, x);
    }
  }

  lemma TreesGrow(t0: Tables, t1: Tables, t2: Tables, dev: Id, col: Id, kind: string, done: set<Id>, c: Id)
    requires LinksInv(t0.collections) && done <= Children(t0.collections, kind, col) && c in Children(t0.collections, kind, col) - done
    requires TreeGone(t0, t1, Trees(t0.collections, done, kind), dev)
    requires TreeGone(t1, t2, TreeOf(t0.collections, c, kind), dev)
    ensures TreeGone(t0, t2, Trees(t0.collections, done + {c}, kind), dev)
  {
    hide LinksInv, Children, TreeGone, Trees, TreeOf;
    OneMoreTree(t0.collections, done, c, kind);
    TreesAreDisjoint(t0.collections, col, kind, done, c);
    TreeGoneJoins(t0, t1, t2, Trees(t0.collections, done, kind), TreeOf(t0.collections, c, kind), dev);
  }

  // A tree is its top and the trees of the top's children.
  lemma TreeIsTopAndBelow(cols: Collections, col: Id, kind: string)
    requires col in cols
    ensures TreeOf(cols, col, kind) == Trees(cols, Children(cols, kind, col), kind) + {col}
  {
    forall x | x in cols
      ensures x in TreeOf(cols, col, kind) <==> x in Trees(cols, Children(cols, kind, col), kind) || x == col
    {
      TreeSplits(cols, col, kind, x);
    }
  }

  lemma TopGoesLast(t0: Tables, t1: Tables, t2: Tables, t3: Tables, dev: Id, col: Id, kind: string)
    requires LinksInv(t0.collections) && col in t0.collections
    requires TreeGone(t0, t1, Trees(t0.collections, Children(t0.collections, kind, col), kind), dev)
    requires Emptying(t1, t2, LiveIn(t1.objects, col), dev)
    requires col in t2.collections && !t2.collections[col].deleted && t3 == Tombstone(t2, col)
    ensures TreeGone(t0, t3, TreeOf(t0.collections, col, kind), dev)
  {
    hide LinksInv, Trees, TreeOf, Children;
    TreeIsTopAndBelow(t0.collections, col, kind);
    var below := Trees(t0.collections, Children(t0.collections, kind, col), kind);
    TombstoneCompletes(t1, t2, col, LiveIn(t1.objects, col), dev);
    assert col !in below;
    TreeGoneJoins(t0, t1, t3, below, {col}, dev);
  }

  // ---- when the deletion succeeds ---------------------------------------------

  // What the forced delete of one object of a live collection asks for.
  predicate Deletable(t: Tables, dev: Caller, col: Id, o: Id) {
    ValidId(o) && ValidId(col) && col in t.collections && !t.collections[col].deleted && MayWrite(t, dev, col)
  }

  predicate MayEmpty(t: Tables, dev: Caller, col: Id) { forall o :: o in LiveIn(t.objects, col) ==> Deletable(t, dev, col, o) }

  // These collections are live, and the caller may delete what is in them.
  ghost predicate Clear(t: Tables, dev: Caller, cs: set<Id>) {
    forall c :: c in cs ==> c in t.collections && !t.collections[c].deleted && MayEmpty(t, dev, c)
  }

  // The caller's access to xs does not hang on a share of one of `gone`.
  ghost predicate KeepsAccess(t: Tables, dev: Caller, xs: set<Id>, gone: set<Id>) {
    forall x :: x in xs && x in t.collections ==>
      dev.System() || t.collections[x].owner == dev.user || t.collections[x].root !in gone
  }

  lemma ForcedDeleteExactly(t: Tables, dev: Caller, inp: Input)
    requires inp.op == Delete && inp.force && inp.oid in t.objects && !t.objects[inp.oid].deleted && t.objects[inp.oid].col == inp.col
    ensures Decide(t, dev, inp).result.status == Ok <==> Deletable(t, dev, inp.col, inp.oid)
  {
    hide AccessFor, MirrorReadOnly, ValidId, DecideCreate, DecideUpdate, GateError;
    GateExactly(t, dev, inp);
  }

  lemma AnswerIsDecided(t: Tables, dev: Caller, key: string, inp: Input)
    ensures ApplyOne(t, dev, key, inp).1 == Decide(t, dev, inp).result
  {
    hide Decide;
  }

  // Until the delete is done, the collections before and after it are the same.
  lemma EmptyingKeepsDeletable(t: Tables, t1: Tables, done: set<Id>, dev: Caller, col: Id, o: Id)
    requires Emptying(t, t1, done, dev.id)
    ensures Deletable(t1, dev, col, o) <==> Deletable(t, dev, col, o)
  {
    hide Deletable;
    SameDeletable(t, t1, dev, col, o);
  }

  lemma SameDeletable(t: Tables, t1: Tables, dev: Caller, col: Id, o: Id)
    requires t1.collections == t.collections && t1.shares == t.shares && t1.members == t.members && t1.users == t.users
    ensures Deletable(t1, dev, col, o) <==> Deletable(t, dev, col, o)
  {
    SameAccess(t, t1, {}, dev, col);
  }

  // Access after some collections were tombstoned and lost their shares.
  lemma SameAccess(t: Tables, t1: Tables, gone: set<Id>, dev: Caller, c: Id)
    requires t1.users == t.users && t1.members == t.members && t1.collections.Keys == t.collections.Keys
    requires c in t.collections ==> t1.collections[c] == t.collections[c] && KeepsAccess(t, dev, {c}, gone)
    requires t1.shares == map k | k in t.shares && k.col !in gone :: t.shares[k]
    ensures AccessFor(t1, dev, c) == AccessFor(t, dev, c) && MirrorReadOnly(t1, dev, c) == MirrorReadOnly(t, dev, c)
  {
    if c in t.collections && !dev.System() && t.collections[c].owner != dev.user {
      var root := t.collections[c].root;
      assert root !in gone;
      assert (set k | k in t1.shares.Keys && k.col == root && Matches(t1, k, dev.user) :: ShareLevel(t1.shares[k]))
          == (set k | k in t.shares.Keys && k.col == root && Matches(t, k, dev.user) :: ShareLevel(t.shares[k]));
    }
  }

  lemma SameMayEmpty(t: Tables, t1: Tables, gone: set<Id>, dev: Caller, c: Id)
    requires TreeGone(t, t1, gone, dev.id) && c in t.collections && c !in gone && KeepsAccess(t, dev, {c}, gone)
    ensures MayEmpty(t1, dev, c) <==> MayEmpty(t, dev, c)
    ensures t1.collections[c].deleted == t.collections[c].deleted
  {
    hide AccessFor, MirrorReadOnly, ValidId;
    SameAccess(t, t1, gone, dev, c);
    assert LiveIn(t1.objects, c) == LiveIn(t.objects, c);
  }

  lemma SameClear(t: Tables, t1: Tables, gone: set<Id>, dev: Caller, cs: set<Id>)
    requires TreeGone(t, t1, gone, dev.id) && cs <= t.collections.Keys && cs !! gone && KeepsAccess(t, dev, cs, gone)
    ensures Clear(t1, dev, cs) <==> Clear(t, dev, cs)
  {
    hide MayEmpty;
    forall c | c in cs ensures (MayEmpty(t1, dev, c) <==> MayEmpty(t, dev, c)) && t1.collections[c].deleted == t.collections[c].deleted {
      SameMayEmpty(t, t1, gone, dev, c);
    }
  }

  // The next child, after some of its siblings' trees are gone.
  lemma ChildClears(t0: Tables, t1: Tables, dev: Caller, col: Id, kind: string, done: set<Id>, c: Id)
    requires LinksInv(t0.collections) && done <= Children(t0.collections, kind, col) && c in Children(t0.collections, kind, col) - done
    requires TreeGone(t0, t1, Trees(t0.collections, done, kind), dev.id)
    ensures var (below, mine) := (Trees(t0.collections, Children(t0.collections, kind, col), kind), TreeOf(t0.collections, c, kind));
      && mine <= below
      && (KeepsAccess(t0, dev, below, below) ==>
            KeepsAccess(t1, dev, mine, mine - {c}) && (Clear(t1, dev, mine) <==> Clear(t0, dev, mine)))
  {
    hide InTree, LinksInv, Children, Clear;
    TreesAreDisjoint(t0.collections, col, kind, done, c);
    var below := Trees(t0.collections, Children(t0.collections, kind, col), kind);
    if KeepsAccess(t0, dev, below, below) {
      SameClear(t0, t1, Trees(t0.collections, done, kind), dev, TreeOf(t0.collections, c, kind));
    }
  }

  lemma TopIsNotBelow(cols: Collections, col: Id, kind: string)
    requires LinksInv(cols) && col in cols
    ensures var below := Trees(cols, Children(cols, kind, col), kind);
      TreeOf(cols, col, kind) == below + {col} && col !in below && TreeOf(cols, col, kind) - {col} == below
  {
    TreeIsTopAndBelow(cols, col, kind);
    if c :| c in Children(cols, kind, col) && InTree(cols, c, kind, col) {
      var n: nat :| LiveChain(cols, c, kind, col, n);
      var rank :| Ranked(cols, rank);
      forall i: nat | i <= n ensures Up(cols, col, i) in cols {}
      ChainRanks(cols, rank, col, n);
    }
  }

  lemma ClearSplits(t: Tables, dev: Caller, a: set<Id>, b: set<Id>)
    ensures Clear(t, dev, a + b) <==> Clear(t, dev, a) && Clear(t, dev, b)
    ensures Clear(t, dev, {})
  {
    hide MayEmpty;
  }

  lemma OneMoreDone(all: set<Id>, rest: set<Id>, c: Id)
    requires c in rest && rest <= all
    ensures all - (rest - {c}) == (all - rest) + {c} && c !in all - rest
  {}

  lemma NothingIsClear(t: Tables, dev: Caller, none: set<Id>, kind: string)
    requires none == {}
    ensures Clear(t, dev, Trees(t.collections, none, kind))
  {}

  lemma OneMoreIsClear(t: Tables, dev: Caller, done: set<Id>, c: Id, kind: string)
    ensures Clear(t, dev, Trees(t.collections, done + {c}, kind)) <==>
      Clear(t, dev, Trees(t.collections, done, kind)) && Clear(t, dev, TreeOf(t.collections, c, kind))
  {
    hide Clear, Trees, TreeOf;
    OneMoreTree(t.collections, done, c, kind);
    ClearSplits(t, dev, Trees(t.collections, done, kind), TreeOf(t.collections, c, kind));
  }

  lemma ClearBelow(t: Tables, dev: Caller, a: set<Id>, b: set<Id>)
    requires a <= b
    ensures Clear(t, dev, b) ==> Clear(t, dev, a)
  {
    hide MayEmpty;
  }

  // The tree is its top and what is below it.
  lemma TreeIsClear(t: Tables, dev: Caller, below: set<Id>, col: Id)
    requires col in t.collections
    ensures Clear(t, dev, below + {col}) <==> Clear(t, dev, below) && !t.collections[col].deleted && MayEmpty(t, dev, col)
    ensures KeepsAccess(t, dev, below + {col}, below) <==> KeepsAccess(t, dev, below, below) && KeepsAccess(t, dev, {col}, below)
  {
    hide MayEmpty;
  }

  lemma TopAfterBelow(t0: Tables, t1: Tables, below: set<Id>, dev: Caller, col: Id)
    requires TreeGone(t0, t1, below, dev.id) && col in t0.collections && col !in below
    ensures col in t1.collections && t1.collections[col].deleted == t0.collections[col].deleted
    ensures KeepsAccess(t0, dev, {col}, below) ==> (MayEmpty(t1, dev, col) <==> MayEmpty(t0, dev, col))
  {
    hide MayEmpty;
    if KeepsAccess(t0, dev, {col}, below) { SameMayEmpty(t0, t1, below, dev, col); }
  }

  lemma EmptyingKeepsPlaces(t: Tables, t1: Tables, done: set<Id>, dev: Id)
    requires Emptying(t, t1, done, dev)
    ensures t1.collections == t.collections
  {}

  lemma TopReachesItself(cols: Collections, r: Id, a: Id, n: nat)
    requires r in cols && cols[r].parent == "" && "" !in cols && a in cols && Up(cols, r, n) == a
    ensures a == r
  {
    ParentStep(cols, r);
    if n > 0 {
      TopStaysTop(cols, n - 1);
      UpAdd(cols, r, 1, n - 1);
    }
  }

  // Where roots are cached, no access hangs on a share inside the tree.
  lemma ForestKeepsAccess(t: Tables, dev: Caller, top: Id, kind: string)
    requires ForestInv(t.collections) && top in t.collections
    ensures KeepsAccess(t, dev, TreeOf(t.collections, top, kind), TreeOf(t.collections, top, kind) - {top})
  {
    var cols := t.collections;
    var rank :| Ranked(cols, rank);
    forall x | x in TreeOf(cols, top, kind) ensures cols[x].root !in TreeOf(cols, top, kind) - {top} {
      RootIsTopmost(cols, rank, x);
      var r := cols[x].root;
      if InTree(cols, top, kind, r) {
        var n: nat :| LiveChain(cols, top, kind, r, n);
        TopReachesItself(cols, r, top, n);
      }
    }
  }

  // It can where a root is stale: b carries the root a beside it, and the caller
  // has read-write shares of both roots. They may delete everything in the
  // tree, but once a is gone with its shares, no longer what is in b.
  lemma StaleShareStopsDeletion(top: Id, a: Id, b: Id, o: Id, u: Id, v: Id, kind: string) returns (t: Tables, dev: Caller)
    requires ValidId(top) && ValidId(a) && ValidId(b) && ValidId(o) && top != a && a != b && b != top && u != v && u != "" && v != ""
    ensures LinksInv(t.collections) && Children(t.collections, kind, top) == {a, b} && Children(t.collections, kind, a) == {}
    ensures LiveIn(t.objects, a) == {} && o in LiveIn(t.objects, b)
    ensures Clear(t, dev, {top, a, b}) && !MayEmpty(Tombstone(t, a), dev, b)
  {
    hide ValidId, MayWrite, Tombstone, LinksInv, Children;
    dev := Caller("d", u, false, false);
    var m := EmptyMeta();
    var none: set<(Id, Id)> := {};
    t := Tables(map[o := Object(b, "file", 1, "", m.hash, "", 0, 2, "d", m, false)], [], 0, map[], {}, {}, StaleSiblings(top, a, b, v, kind),
                map[ShareKey(top, UserPrincipal(u)) := true, ShareKey(a, UserPrincipal(u)) := true], none,
                map[u := User(true, 0), v := User(true, 0)], map[], map[], map[], 0);
    NotEmpty(top); NotEmpty(a); NotEmpty(b);
    SiblingLinks(top, a, b, v, kind);
    SharedThenNot(t, dev, a, b, v);
    assert o in LiveIn(t.objects, b) && LiveIn(t.objects, b) == {o} && LiveIn(t.objects, a) == {} && LiveIn(t.objects, top) == {};
    assert LiveIn(Tombstone(t, a).objects, b) == {o} by { TombstoneShape(t, a); }
  }

  lemma NotEmpty(s: Id)
    requires ValidId(s)
    ensures s != ""
  {}

  function StaleSiblings(top: Id, a: Id, b: Id, v: Id, kind: string): Collections {
    map[top := Collection(kind, "n", "", v, top, false, 1, false, ""),
        a := Collection(kind, "a", top, v, top, false, 1, false, ""),
        b := Collection(kind, "b", top, v, a, false, 1, false, "")]
  }

  lemma SiblingLinks(top: Id, a: Id, b: Id, v: Id, kind: string)
    requires top != a && a != b && b != top && "" !in {top, a, b}
    ensures var cols := StaleSiblings(top, a, b, v, kind);
      LinksInv(cols) && Children(cols, kind, top) == {a, b} && Children(cols, kind, a) == {}
  {
    var cols := StaleSiblings(top, a, b, v, kind);
    assert Ranked(cols, map[top := 0, a := 1, b := 1]);
    hide Ranked, Acyclic;
    assert OwnerOk(cols, top) && OwnerOk(cols, a) && OwnerOk(cols, b);
  }

  lemma SharedThenNot(t: Tables, dev: Caller, a: Id, b: Id, v: Id)
    requires a in t.collections && b in t.collections && a != b && !t.collections[a].deleted && !t.collections[a].mirror && !t.collections[b].mirror
    requires t.collections[a].owner == t.collections[b].owner == v != dev.user && ActiveUser(t, v) && ActiveUser(t, dev.user)
    requires dev.user != "" && !dev.revoked && t.collections[b].root == a && t.members == {}
    requires var k := ShareKey(a, UserPrincipal(dev.user)); k in t.shares && t.shares[k]
    ensures MayWrite(t, dev, b) && !MayWrite(Tombstone(t, a), dev, b)
  {
    hide AccessFor, MirrorReadOnly;
    WritersExactly(t, dev, b);
    WritersExactly(Tombstone(t, a), dev, b);
  }

  // Nor for system callers and the owner, whatever roots are cached.
  lemma OwnerKeepsAccess(t: Tables, dev: Caller, top: Id, kind: string, gone: set<Id>)
    requires LinksInv(t.collections) && top in t.collections && (dev.System() || t.collections[top].owner == dev.user)
    ensures KeepsAccess(t, dev, TreeOf(t.collections, top, kind), gone)
  {
    forall x | x in TreeOf(t.collections, top, kind) ensures t.collections[x].owner == t.collections[top].owner {
      var n: nat :| LiveChain(t.collections, top, kind, x, n);
      OwnerAbove(t.collections, top, kind, x, n);
    }
  }

  lemma {:induction false} OwnerAbove(cols: Collections, top: Id, kind: string, x: Id, n: nat)
    requires LinksInv(cols) && top in cols && x in cols && LiveChain(cols, top, kind, x, n)
    ensures cols[x].owner == cols[top].owner
    decreases n
  {
    ParentStep(cols, x);
    if n > 0 {
      var p := cols[x].parent;
      assert OwnerOk(cols, x);
      if p == "" {
        TopReachesItself(cols, x, top, n);
      } else {
        forall i: nat | i <= n - 1 ensures Up(cols, p, i) == Up(cols, x, i + 1) { UpAdd(cols, x, 1, i); }
        assert LiveChain(cols, top, kind, p, n - 1);
        OwnerAbove(cols, top, kind, p, n - 1);
      }
    }
  }

  // ---- what the deletion means for blob counts ---------------------------------

  ghost function UsesIn(t: Tables, gone: set<Id>, h: Hash): int {
    Sum(map o | o in t.objects :: if t.objects[o].col in gone then Uses(t.objects[o], h) else 0)
  }

  lemma {:induction false} SumAdds(a: map<string, int>, b: map<string, int>, c: map<string, int>)
    requires a.Keys == b.Keys == c.Keys && forall k :: k in a ==> a[k] == b[k] + c[k]
    ensures Sum(a) == Sum(b) + Sum(c)
    decreases |a|
  {
    if a.Keys != {} {
      var k := Pick(a.Keys);
      SumRemove(a, k); SumRemove(b, k); SumRemove(c, k);
      assert (a - {k}).Keys == a.Keys - {k};
      SumAdds(a - {k}, b - {k}, c - {k});
    }
  }

  lemma RecountSplits(t0: Tables, t: Tables, gone: set<Id>, dev: Id, h: Hash)
    requires TreeGone(t0, t, gone, dev)
    ensures Recount(t0.objects, h) == Recount(t.objects, h) + UsesIn(t0, gone, h)
  {
    hide Extra;
    SumAdds(UseMap(t0.objects, h), UseMap(t.objects, h),
            map o | o in t0.objects :: if t0.objects[o].col in gone then Uses(t0.objects[o], h) else 0);
  }

  // Every blob loses exactly the references of the removed objects.
  lemma TreeFreesItsBlobs(t0: Tables, t: Tables, gone: set<Id>, dev: Id, h: Hash)
    requires RefInv(t0) && RefInv(t) && TreeGone(t0, t, gone, dev) && h in t0.blobs
    ensures h in t.blobs && t.blobs[h].refcount == t0.blobs[h].refcount - UsesIn(t0, gone, h)
  {
    hide Recount, UsesIn;
    RecountSplits(t0, t, gone, dev, h);
  }

  // A deleted tree leaves no live object in a tombstoned collection, if there
  // was none before.
  lemma TreeKeepsPlaces(t0: Tables, t: Tables, gone: set<Id>, dev: Id)
    requires LiveObjectsInLiveCollections(t0) && TreeGone(t0, t, gone, dev)
    ensures LiveObjectsInLiveCollections(t)
    ensures forall o :: o in t.objects && t.objects[o].col in gone ==> t.objects[o].deleted
  {}
}
