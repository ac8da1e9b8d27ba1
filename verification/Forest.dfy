// Collections form a forest: parent links are acyclic, root_id caches the
// topmost ancestor, and every tree has one owner.

module Forest {
  import opened Wrappers
  import opened Model
  import opened Access
  import opened Sums

  type Collections = map<Id, Collection>

  // The n-th ancestor of c, "" once the chain has ended.
  function Up(cols: Collections, c: Id, n: nat): Id {
    if n == 0 then c
    else
      var p := Up(cols, c, n - 1);
      if p in cols then cols[p].parent else ""
  }

  ghost predicate AncestorOrSelf(cols: Collections, a: Id, c: Id) {
    a != "" && exists n: nat :: Up(cols, c, n) == a
  }

  // The chain from c reaches the top after n steps, over existing collections
  // and without meeting id.
  ghost predicate CleanChain(cols: Collections, id: Id, c: Id, n: nat) {
    Up(cols, c, n) == "" && forall i: nat :: i < n ==> Up(cols, c, i) in cols && Up(cols, c, i) != id && Up(cols, c, i) != ""
  }

  // What IsAncestor answers false for.
  ghost predicate ProvenlyOutside(cols: Collections, id: Id, c: Id) {
    exists n: nat :: CleanChain(cols, id, c, n)
  }

  ghost predicate Ranked(cols: Collections, rank: map<Id, nat>) {
    forall c :: c in cols ==>
      c in rank && (cols[c].parent != "" ==> cols[c].parent in cols && cols[c].parent in rank && rank[cols[c].parent] < rank[c])
  }

  ghost predicate Acyclic(cols: Collections) { exists rank :: Ranked(cols, rank) }

  // A parent and a cached root are known collections of the same owner.
  ghost predicate OwnerOk(cols: Collections, c: Id)
    requires c in cols
  {
    && cols[c].root in cols && cols[cols[c].root].owner == cols[c].owner
    && (cols[c].parent != "" ==> cols[c].parent in cols && cols[cols[c].parent].owner == cols[c].owner)
  }

  ghost predicate OwnersAgree(cols: Collections) {
    forall c {:trigger OwnerOk(cols, c)} :: c in cols ==> OwnerOk(cols, c)
  }

  // What the links always satisfy.
  ghost predicate LinksInv(cols: Collections) { "" !in cols && Acyclic(cols) && OwnersAgree(cols) }

  // The root that a row with this parent should carry.
  function RootNow(cols: Collections, id: Id, parent: Id): Id {
    if parent == "" || parent !in cols then id else cols[parent].root
  }

  ghost predicate RootsCached(cols: Collections) {
    forall c {:trigger RootOk(cols, c)} :: c in cols ==> RootOk(cols, c)
  }

  predicate RootOk(cols: Collections, c: Id)
    requires c in cols
  {
    cols[c].root == RootNow(cols, c, cols[c].parent)
  }

  ghost predicate ForestInv(cols: Collections) { LinksInv(cols) && RootsCached(cols) }

  // ---- chains ------------------------------------------------------------

  lemma {:induction false} UpAdd(cols: Collections, c: Id, a: nat, b: nat)
    ensures Up(cols, c, a + b) == Up(cols, Up(cols, c, a), b)
    decreases b
  {
    if b > 0 { UpAdd(cols, c, a, b - 1); }
  }

  lemma {:induction false} TopStaysTop(cols: Collections, n: nat)
    requires "" !in cols
    ensures Up(cols, "", n) == ""
  {
    if n > 0 { TopStaysTop(cols, n - 1); }
  }

  // Chains of a forest end.
  lemma {:induction false} ChainEnds(cols: Collections, rank: map<Id, nat>, c: Id) returns (n: nat)
    requires "" !in cols && Ranked(cols, rank) && c in cols
    ensures Up(cols, c, n) == "" && n > 0 && forall i: nat :: i < n ==> Up(cols, c, i) in cols
    decreases rank[c]
  {
    var p := cols[c].parent;
    if p == "" {
      n := 1;
      assert Up(cols, c, 0) == c;
    } else {
      var k := ChainEnds(cols, rank, p);
      n := k + 1;
      forall i: nat | i <= k ensures Up(cols, c, i + 1) == Up(cols, p, i) {
        UpAdd(cols, c, 1, i);
        assert Up(cols, c, 0) == c && Up(cols, c, 1) == p;
      }
      forall i: nat | i < n ensures Up(cols, c, i) in cols {
        if i > 0 { assert Up(cols, c, (i - 1) + 1) == Up(cols, p, i - 1); }
      }
    }
  }

  // Without cycles IsAncestor is exact.
  lemma OutsideExactly(cols: Collections, id: Id, c: Id)
    requires "" !in cols && Acyclic(cols) && c in cols && id != ""
    ensures ProvenlyOutside(cols, id, c) <==> !AncestorOrSelf(cols, id, c)
  {
    var rank :| Ranked(cols, rank);
    var n := ChainEnds(cols, rank, c);
    if !AncestorOrSelf(cols, id, c) {
      assert CleanChain(cols, id, c, n);
    } else {
      var k: nat :| Up(cols, c, k) == id;
      if m: nat :| CleanChain(cols, id, c, m) {
        if k >= m {
          UpAdd(cols, c, m, k - m);
          TopStaysTop(cols, k - m);
        }
        assert false;
      }
    }
  }

  // A chain that meets a node twice never reaches the top.
  lemma RevisitNeverEnds(cols: Collections, id: Id, c: Id, i: nat, k: nat)
    requires i < k && Up(cols, c, i) == Up(cols, c, k) != ""
    requires "" !in cols
    ensures !ProvenlyOutside(cols, id, c)
  {
    if n: nat :| CleanChain(cols, id, c, n) {
      if n <= k {
        UpAdd(cols, c, n, k - n);
        TopStaysTop(cols, k - n);
        assert false;
      } else {
        UpAdd(cols, c, k, n - k);
        UpAdd(cols, c, i, n - k);
        assert false;
      }
    }
  }

  // root_id is the topmost ancestor, itself its own root, with the same owner.
  lemma {:induction false} RootIsTopmost(cols: Collections, rank: map<Id, nat>, c: Id)
    requires ForestInv(cols) && Ranked(cols, rank) && c in cols
    ensures var r := cols[c].root;
      && r in cols && cols[r].parent == "" && cols[r].root == r && cols[r].owner == cols[c].owner
      && AncestorOrSelf(cols, r, c)
    decreases rank[c]
  {
    var p := cols[c].parent;
    assert RootOk(cols, c) && OwnerOk(cols, c);
    if p == "" {
      assert Up(cols, c, 0) == c;
    } else {
      RootIsTopmost(cols, rank, p);
      var r := cols[c].root;
      var n: nat :| Up(cols, p, n) == r;
      UpAdd(cols, c, 1, n);
      assert Up(cols, c, 0) == c && Up(cols, c, 1) == p;
      assert Up(cols, c, 1 + n) == r;
    }
  }

  // So access to a collection is access to its root.
  lemma AccessIsRootAccess(t: Tables, user: Id, c: Id)
    requires ForestInv(t.collections) && c in t.collections
    ensures t.collections[c].root in t.collections
    ensures AccessQ(t, user, c) == AccessQ(t, user, t.collections[c].root)
    ensures forall sc :: Visible(t, sc, c) == Visible(t, sc, t.collections[c].root)
  {
    var rank :| Ranked(t.collections, rank);
    RootIsTopmost(t.collections, rank, c);
  }

  // ---- creating a collection ----------------------------------------------

  datatype ColError = NoColError | InvalidCollection | ColNotFound | NameExists

  // A live sibling of the same owner, kind and name; the unique index ignores
  // rows without an owner.
  predicate NameTaken(cols: Collections, owner: Id, kind: string, parent: Id, name: string, self: Id) {
    owner != "" && exists c | c in cols.Keys ::
      c != self && !cols[c].deleted && cols[c].owner == owner && cols[c].kind == kind && cols[c].parent == parent && cols[c].name == name
  }

  // CreateCollection reads the parent first; the insert is a later statement.
  function ReadCreate(cols: Collections, kind: string, name: string, parent: Id): ColError {
    if kind == "" || name == "" then InvalidCollection
    else if parent != "" && (parent !in cols || cols[parent].deleted) then ColNotFound
    else NoColError
  }

  // Roots belong to the caller, children to their parent's owner.
  function OwnerNow(cols: Collections, owner: Id, parent: Id): Id {
    if parent == "" || parent !in cols then owner else cols[parent].owner
  }

  function InsertError(cols: Collections, owner: Id, kind: string, name: string, parent: Id): ColError {
    if NameTaken(cols, owner, kind, parent, name, "") then NameExists else NoColError
  }

  function Insert(cols: Collections, id: Id, owner: Id, kind: string, name: string, parent: Id, root: Id): Collections {
    cols[id := Collection(kind, name, parent, owner, root, false, 1, false, "")]
  }

  // What a request was told by its reads and stays true: the root it carries
  // and its parent are collections of the row's owner.
  predicate Told(cols: Collections, id: Id, owner: Id, parent: Id, root: Id) {
    if parent == "" then root == id
    else parent in cols && cols[parent].owner == owner && root in cols && cols[root].owner == owner
  }

  lemma InsertKeepsLinks(cols: Collections, id: Id, owner: Id, kind: string, name: string, parent: Id, root: Id)
    requires LinksInv(cols) && id !in cols && id != "" && Told(cols, id, owner, parent, root)
    ensures LinksInv(Insert(cols, id, owner, kind, name, parent, root))
  {
    var cols' := Insert(cols, id, owner, kind, name, parent, root);
    var rank :| Ranked(cols, rank);
    var rank' := rank[id := if parent == "" then 0 else rank[parent] + 1];
    assert Ranked(cols', rank');
    hide Ranked, Acyclic;
    forall c | c in cols' ensures OwnerOk(cols', c) {
      assert c != id ==> OwnerOk(cols, c);
    }
  }

  // The insert keeps the roots cached exactly if the root it carries is still
  // its parent's.
  lemma InsertKeepsForestExactly(cols: Collections, id: Id, owner: Id, kind: string, name: string, parent: Id, root: Id)
    requires ForestInv(cols) && id !in cols && id != "" && Told(cols, id, owner, parent, root)
    ensures ForestInv(Insert(cols, id, owner, kind, name, parent, root)) <==> root == RootNow(cols, id, parent)
  {
    InsertKeepsLinks(cols, id, owner, kind, name, parent, root);
    hide Acyclic;
    var cols' := Insert(cols, id, owner, kind, name, parent, root);
    assert RootOk(cols', id) <==> root == RootNow(cols, id, parent);
    forall c | c in cols ensures RootOk(cols', c) {
      assert RootOk(cols, c) && OwnerOk(cols, c);
    }
    hide RootOk;
  }

  // ---- moving a collection -------------------------------------------------

  // SetCollectionParent reads both rows first; the update is a later
  // transaction.
  function ReadMove(cols: Collections, id: Id, parent: Id): ColError {
    if id !in cols || cols[id].deleted then ColNotFound
    else if parent != "" && parent !in cols then ColNotFound
    else if parent != "" && cols[parent].owner != cols[id].owner then InvalidCollection
    else NoColError
  }

  function UpdateError(cols: Collections, id: Id, parent: Id): ColError {
    if id !in cols || cols[id].deleted then ColNotFound
    else if NameTaken(cols, cols[id].owner, cols[id].kind, parent, cols[id].name, id) then NameExists
    else NoColError
  }

  function Relink(cols: Collections, id: Id, parent: Id): Collections
    requires id in cols
  {
    cols[id := cols[id].(parent := parent, rev := cols[id].rev + 1)]
  }

  // The n-th round of the recursive query that collects the moved subtree: its
  // UNION ALL joins the children of every row of the round before, whether or
  // not they were met earlier.
  ghost function Round(cols: Collections, id: Id, n: nat): set<Id> {
    if n == 0 then {id} else set c | c in cols && cols[c].parent in Round(cols, id, n - 1)
  }

  ghost predicate EmptyRound(cols: Collections, id: Id, n: nat) { Round(cols, id, n) == {} }

  ghost predicate QueryEnds(cols: Collections, id: Id) { exists n: nat :: EmptyRound(cols, id, n) }

  // Relink, then re-root the subtree.
  ghost function Rerooted(cols: Collections, id: Id, parent: Id, root: Id): Collections
    requires id in cols
  {
    var linked := Relink(cols, id, parent);
    map c | c in linked :: if AncestorOrSelf(linked, id, c) then linked[c].(root := root) else linked[c]
  }

  // The transaction of a move: a query that does not end never commits.
  datatype Moved = Refused(err: ColError) | Committed(cols: Collections) | NeverReturns

  ghost function CommitMove(cols: Collections, id: Id, parent: Id, root: Id): Moved {
    var err := UpdateError(cols, id, parent);
    if err != NoColError then Refused(err)
    else if !QueryEnds(Relink(cols, id, parent), id) then NeverReturns
    else Committed(Rerooted(cols, id, parent, root))
  }

  // A move changes one parent, and the roots of the moved subtree.
  lemma MoveFrame(cols: Collections, id: Id, parent: Id, root: Id)
    requires "" !in cols && CommitMove(cols, id, parent, root).Committed?
    ensures var cols' := CommitMove(cols, id, parent, root).cols;
      && cols'.Keys == cols.Keys && id in cols
      && cols'[id] == cols[id].(parent := parent, root := root, rev := cols[id].rev + 1)
      && forall c :: c in cols && c != id ==>
        cols'[c] == cols[c].(root := if AncestorOrSelf(Relink(cols, id, parent), id, c) then root else cols[c].root)
  {
    hide NameTaken;
    assert Up(Relink(cols, id, parent), id, 0) == id;
  }

  // Below id means being id or having a parent below id.
  lemma BelowStep(cols: Collections, id: Id, c: Id)
    requires "" !in cols && c in cols && id != ""
    ensures AncestorOrSelf(cols, id, c) <==> c == id || (cols[c].parent != "" && AncestorOrSelf(cols, id, cols[c].parent))
  {
    var p := cols[c].parent;
    assert Up(cols, c, 0) == c && Up(cols, c, 1) == p;
    if n: nat :| Up(cols, c, n) == id && c != id {
      assert n > 0;
      UpAdd(cols, c, 1, n - 1);
      if p == "" { TopStaysTop(cols, n - 1); }
    }
    if p != "" {
      if n: nat :| Up(cols, p, n) == id { UpAdd(cols, c, 1, n); assert Up(cols, c, 1 + n) == id; }
    }
  }

  // Relinking id does not change chains that avoid id.
  lemma {:induction false} CleanChainUnchanged(cols: Collections, id: Id, parent: Id, c: Id, n: nat, i: nat)
    requires id in cols && CleanChain(cols, id, c, n) && i <= n
    ensures Up(Relink(cols, id, parent), c, i) == Up(cols, c, i)
  {
    if i > 0 { CleanChainUnchanged(cols, id, parent, c, n, i - 1); }
  }

  lemma ParentStaysOutside(cols: Collections, id: Id, parent: Id)
    requires "" !in cols && id in cols && ProvenlyOutside(cols, id, parent)
    ensures !AncestorOrSelf(Relink(cols, id, parent), id, parent)
  {
    var cols' := Relink(cols, id, parent);
    var n: nat :| CleanChain(cols, id, parent, n);
    if k: nat :| Up(cols', parent, k) == id {
      if k < n {
        CleanChainUnchanged(cols, id, parent, parent, n, k);
      } else {
        CleanChainUnchanged(cols, id, parent, parent, n, n);
        UpAdd(cols', parent, n, k - n);
        TopStaysTop(cols', k - n);
      }
    }
  }

  lemma OutsideMoveIsAcyclic(cols: Collections, id: Id, parent: Id)
    requires "" !in cols && Acyclic(cols) && id in cols && (parent == "" || parent in cols)
    requires ProvenlyOutside(cols, id, parent)
    ensures Acyclic(Relink(cols, id, parent))
  {
    var rank :| Ranked(cols, rank);
    var cols' := Relink(cols, id, parent);
    var lift := if parent == "" then 0 else rank[parent] + 1;
    var rank' := map c | c in cols :: if AncestorOrSelf(cols', id, c) then rank[c] + lift else rank[c];
    ParentStaysOutside(cols, id, parent);
    forall c | c in cols'
      ensures c in rank' && (cols'[c].parent != "" ==> cols'[c].parent in cols' && rank'[cols'[c].parent] < rank'[c])
    {
      BelowStep(cols', id, c);
    }
    assert Ranked(cols', rank');
  }

  // ---- when the query ends -------------------------------------------------------

  // Round n is what is n links below id.
  lemma {:induction false} RoundIs(cols: Collections, id: Id, n: nat, c: Id)
    requires "" !in cols && id in cols && c in cols
    ensures c in Round(cols, id, n) <==> Up(cols, c, n) == id
  {
    if n > 0 {
      var p := cols[c].parent;
      assert Up(cols, c, 0) == c && Up(cols, c, 1) == p;
      UpAdd(cols, c, 1, n - 1);
      if p in cols {
        RoundIs(cols, id, n - 1, p);
      } else {
        NotBelow(cols, id, p, n - 1);
        RoundInCols(cols, id, n - 1);
      }
    }
  }

  lemma {:induction false} RoundInCols(cols: Collections, id: Id, n: nat)
    requires id in cols
    ensures Round(cols, id, n) <= cols.Keys
  {}

  lemma {:induction false} NotBelow(cols: Collections, id: Id, p: Id, n: nat)
    requires "" !in cols && id in cols && p !in cols
    ensures Up(cols, p, n) != id
  {
    if n > 0 {
      assert Up(cols, p, 0) == p && Up(cols, p, 1) == "";
      UpAdd(cols, p, 1, n - 1);
      TopStaysTop(cols, n - 1);
    }
  }

  // Without cycles a chain of n links needs n ranks.
  lemma {:induction false} ChainRanks(cols: Collections, rank: map<Id, nat>, c: Id, n: nat)
    requires "" !in cols && Ranked(cols, rank) && c in cols && Up(cols, c, n) in cols
    ensures rank[Up(cols, c, n)] + n <= rank[c]
    decreases n
  {
    if n > 0 {
      if Up(cols, c, n - 1) in cols { ChainRanks(cols, rank, c, n - 1); }
    }
  }

  lemma {:induction false} RanksBounded(rank: map<Id, nat>) returns (b: nat)
    ensures forall c :: c in rank ==> rank[c] < b
    decreases |rank|
  {
    b := 0;
    if rank.Keys != {} {
      var c := Pick(rank.Keys);
      assert (rank - {c}).Keys == rank.Keys - {c};
      b := RanksBounded(rank - {c});
      b := if rank[c] < b then b else rank[c] + 1;
      assert forall x :: x in rank && x != c ==> rank[x] == (rank - {c})[x];
    }
  }

  lemma AcyclicQueryEnds(cols: Collections, id: Id)
    requires "" !in cols && id in cols && Acyclic(cols)
    ensures QueryEnds(cols, id)
  {
    var rank :| Ranked(cols, rank);
    var b := RanksBounded(rank);
    RoundInCols(cols, id, b);
    forall c | c in cols ensures c !in Round(cols, id, b) {
      RoundIs(cols, id, b, c);
      if Up(cols, c, b) == id { ChainRanks(cols, rank, c, b); }
    }
    assert EmptyRound(cols, id, b);
  }

  // On a cycle through id every round has a row.
  lemma {:induction false} CycleFillsRounds(cols: Collections, id: Id, m: nat, n: nat) returns (j: nat)
    requires "" !in cols && id in cols && m > 0 && Up(cols, id, m) == id
    ensures Up(cols, Up(cols, id, j), n) == id
  {
    j := 0;
    if n > 0 {
      var k := CycleFillsRounds(cols, id, m, n - 1);
      j := k + m - 1;
      UpAdd(cols, id, m, k);
      assert Up(cols, id, j + 1) == Up(cols, id, k);
      UpAdd(cols, id, j, 1);
      UpAdd(cols, Up(cols, id, j), 1, n - 1);
    }
  }

  lemma CycleNeverEnds(cols: Collections, id: Id, m: nat)
    requires "" !in cols && id in cols && m > 0 && Up(cols, id, m) == id
    ensures !QueryEnds(cols, id)
  {
    forall n: nat ensures !EmptyRound(cols, id, n) {
      var j := CycleFillsRounds(cols, id, m, n);
      var c := Up(cols, id, j);
      if c !in cols { NotBelow(cols, id, c, n); }
      RoundIs(cols, id, n, c);
    }
  }

  lemma FirstMeeting(cols: Collections, id: Id, c: Id) returns (n: nat)
    requires "" !in cols && c in cols && id in cols && AncestorOrSelf(cols, id, c)
    ensures Up(cols, c, n) == id && forall i: nat :: i < n ==> Up(cols, c, i) != id && Up(cols, c, i) in cols
  {
    var k: nat :| Up(cols, c, k) == id;
    n := 0;
    while Up(cols, c, n) != id
      invariant n <= k && forall i: nat :: i < n ==> Up(cols, c, i) != id && Up(cols, c, i) in cols
      decreases k - n
    {
      UpAdd(cols, c, n, k - n);
      if Up(cols, c, n) !in cols { NotBelow(cols, id, Up(cols, c, n), k - n); }
      n := n + 1;
    }
  }

  // Links that avoid id until they meet it are the same after relinking id.
  lemma {:induction false} MeetingUnchanged(cols: Collections, id: Id, parent: Id, c: Id, n: nat, i: nat)
    requires id in cols && i <= n && forall k: nat :: k < n ==> Up(cols, c, k) != id && Up(cols, c, k) in cols
    ensures Up(Relink(cols, id, parent), c, i) == Up(cols, c, i)
  {
    if i > 0 { MeetingUnchanged(cols, id, parent, c, n, i - 1); }
  }

  // From links without cycles, the query of a move ends exactly if the new
  // parent is not at or below the moved collection: what IsAncestor answers.
  lemma QueryEndsExactly(cols: Collections, id: Id, parent: Id)
    requires "" !in cols && Acyclic(cols) && id in cols && (parent == "" || parent in cols)
    ensures QueryEnds(Relink(cols, id, parent), id) <==> ProvenlyOutside(cols, id, parent)
  {
    var linked := Relink(cols, id, parent);
    if ProvenlyOutside(cols, id, parent) {
      OutsideMoveIsAcyclic(cols, id, parent);
      AcyclicQueryEnds(linked, id);
    } else {
      if parent == "" { assert CleanChain(cols, id, "", 0); }
      OutsideExactly(cols, id, parent);
      var n := FirstMeeting(cols, id, parent);
      MeetingUnchanged(cols, id, parent, parent, n, n);
      assert Up(linked, id, 0) == id && Up(linked, id, 1) == parent;
      UpAdd(linked, id, 1, n);
      CycleNeverEnds(linked, id, n + 1);
    }
  }

  // ---- what a committed move keeps ----------------------------------------------

  // A move below itself never returns; any other move commits or is refused.
  lemma MoveReturnsExactly(cols: Collections, id: Id, parent: Id, root: Id)
    requires "" !in cols && Acyclic(cols) && (parent == "" || parent in cols) && UpdateError(cols, id, parent) == NoColError
    ensures CommitMove(cols, id, parent, root) == NeverReturns <==> !ProvenlyOutside(cols, id, parent)
  {
    hide NameTaken, QueryEnds, ProvenlyOutside;
    QueryEndsExactly(cols, id, parent);
  }

  lemma {:induction false} SameOwnerBelow(cols: Collections, cols': Collections, id: Id, c: Id, n: nat)
    requires OwnersAgree(cols) && c in cols && id in cols && id != "" && "" !in cols
    requires cols'.Keys == cols.Keys && (forall x :: x in cols && x != id ==> cols'[x].parent == cols[x].parent)
    requires Up(cols', c, n) == id
    ensures cols[c].owner == cols[id].owner
    decreases n
  {
    if c != id {
      assert OwnerOk(cols, c);
      assert Up(cols', c, 0) == c && Up(cols', c, 1) == cols[c].parent;
      UpAdd(cols', c, 1, n - 1);
      if cols[c].parent == "" { TopStaysTop(cols', n - 1); }
      SameOwnerBelow(cols, cols', id, cols[c].parent, n - 1);
    }
  }

  lemma SameLinks(cols: Collections, cols': Collections)
    requires Acyclic(cols) && cols'.Keys == cols.Keys && forall c :: c in cols ==> cols'[c].parent == cols[c].parent
    ensures Acyclic(cols')
  {
    var rank :| Ranked(cols, rank);
    assert Ranked(cols', rank);
  }

  lemma RerootKeepsOwners(cols: Collections, id: Id, parent: Id, root: Id)
    requires "" !in cols && OwnersAgree(cols) && id in cols && Told(cols, id, cols[id].owner, parent, root)
    ensures OwnersAgree(Rerooted(cols, id, parent, root))
  {
    var linked := Relink(cols, id, parent);
    var cols' := Rerooted(cols, id, parent, root);
    forall c | c in cols ensures OwnerOk(cols', c) {
      assert OwnerOk(cols, c);
      if AncestorOrSelf(linked, id, c) {
        var n: nat :| Up(linked, c, n) == id;
        SameOwnerBelow(cols, linked, id, c, n);
      }
      hide AncestorOrSelf, OwnersAgree;
    }
  }

  // Every committed move, whatever the caller checked and whatever root it
  // carries, leaves links without cycles and owners that agree.
  lemma CommittedMoveKeepsLinks(cols: Collections, id: Id, parent: Id, root: Id)
    requires LinksInv(cols) && id in cols && Told(cols, id, cols[id].owner, parent, root)
    requires CommitMove(cols, id, parent, root).Committed?
    ensures LinksInv(CommitMove(cols, id, parent, root).cols) && ProvenlyOutside(cols, id, parent)
  {
    hide NameTaken;
    QueryEndsExactly(cols, id, parent);
    OutsideMoveIsAcyclic(cols, id, parent);
    var linked := Relink(cols, id, parent);
    var cols' := Rerooted(cols, id, parent, root);
    SameLinks(linked, cols');
    RerootKeepsOwners(cols, id, parent, root);
    hide QueryEnds, ProvenlyOutside, Acyclic, OwnersAgree, Rerooted;
  }

  // It keeps the roots cached exactly if the root it carries is still its new
  // parent's.
  lemma CommittedMoveKeepsForestExactly(cols: Collections, id: Id, parent: Id, root: Id)
    requires ForestInv(cols) && id in cols && Told(cols, id, cols[id].owner, parent, root)
    requires CommitMove(cols, id, parent, root).Committed?
    ensures ForestInv(CommitMove(cols, id, parent, root).cols) <==> root == RootNow(cols, id, parent)
  {
    hide NameTaken, QueryEnds, ProvenlyOutside, AncestorOrSelf, OwnersAgree;
    CommittedMoveKeepsLinks(cols, id, parent, root);
    ParentStaysOutside(cols, id, parent);
    var linked := Relink(cols, id, parent);
    var cols' := Rerooted(cols, id, parent, root);
    forall c | c in cols
      ensures AncestorOrSelf(linked, id, c) <==> c == id || (linked[c].parent != "" && AncestorOrSelf(linked, id, linked[c].parent))
    {
      BelowStep(linked, id, c);
    }
    hide Acyclic;
    assert RootOk(cols', id) <==> root == RootNow(cols, id, parent);
    forall c | c in cols && c != id ensures RootOk(cols', c) {
      assert RootOk(cols, c);
    }
    hide RootOk, RootNow;
  }

  // ---- races between the reads and the write ------------------------------------

  // Two moves that both passed the check, one under the other: the second
  // query never ends.
  lemma RacingMoveNeverReturns(cols: Collections, a: Id, b: Id, root: Id)
    requires ForestInv(cols) && a != b && a in cols && b in cols && cols[a].parent == "" && cols[b].parent == ""
    requires ReadMove(cols, a, b) == NoColError && UpdateError(cols, a, b) == NoColError
    requires var once := CommitMove(cols, a, b, b); once.Committed? ==> UpdateError(once.cols, b, a) == NoColError
    ensures ProvenlyOutside(cols, a, b) && ProvenlyOutside(cols, b, a)
    ensures var once := CommitMove(cols, a, b, b);
      once.Committed? && ForestInv(once.cols) && CommitMove(once.cols, b, a, root) == NeverReturns
  {
    hide NameTaken;
    assert Up(cols, b, 0) == b && Up(cols, b, 1) == "" && Up(cols, a, 0) == a && Up(cols, a, 1) == "";
    assert CleanChain(cols, a, b, 1) && CleanChain(cols, b, a, 1);
    assert RootOk(cols, a) && RootOk(cols, b);
    MoveReturnsExactly(cols, a, b, b);
    CommittedMoveKeepsForestExactly(cols, a, b, b);
    var once := CommitMove(cols, a, b, b).cols;
    MoveFrame(cols, a, b, b);
    assert Up(once, a, 0) == a && Up(once, a, 1) == b;
    OutsideExactly(once, b, a);
    MoveReturnsExactly(once, b, a, root);
  }

  lemma TopIsOutside(cols: Collections, a: Id, b: Id)
    requires "" !in cols && b in cols && a != b && cols[b].parent == ""
    ensures ProvenlyOutside(cols, a, b)
  {
    assert Up(cols, b, 0) == b && Up(cols, b, 1) == "";
    assert CleanChain(cols, a, b, 1);
  }

  lemma ChildOfTopIsOutside(cols: Collections, a: Id, b: Id)
    requires "" !in cols && b in cols && cols[b].parent in cols && a != b && a != cols[b].parent && cols[cols[b].parent].parent == ""
    ensures ProvenlyOutside(cols, a, b)
  {
    assert Up(cols, b, 0) == b && Up(cols, b, 1) == cols[b].parent && Up(cols, b, 2) == "";
    assert CleanChain(cols, a, b, 2);
  }

  // One root moved below another.
  lemma RootMovesBelowRoot(cols: Collections, p: Id, q: Id)
    requires ForestInv(cols) && p != q && {p, q} <= cols.Keys && cols[p].parent == "" && cols[q].parent == ""
    requires UpdateError(cols, p, q) == NoColError && cols[p].owner == cols[q].owner
    ensures RootNow(cols, p, q) == q
    ensures var once := CommitMove(cols, p, q, q);
      && once.Committed? && ForestInv(once.cols) && once.cols.Keys == cols.Keys
      && once.cols[p] == cols[p].(parent := q, root := q, rev := cols[p].rev + 1)
      && forall c :: c in cols && c != p ==> once.cols[c].parent == cols[c].parent && once.cols[c].owner == cols[c].owner
  {
    hide NameTaken, UpdateError, CommitMove, ProvenlyOutside, Acyclic, OwnersAgree, RootsCached, AncestorOrSelf;
    TopIsOutside(cols, p, q);
    assert RootOk(cols, q) by { RootIsCached(cols, q); }
    MoveReturnsExactly(cols, p, q, q);
    NotRefused(cols, p, q, q);
    CommittedMoveKeepsForestExactly(cols, p, q, q);
    MoveFrame(cols, p, q, q);
  }

  lemma RootIsCached(cols: Collections, c: Id)
    requires RootsCached(cols) && c in cols
    ensures RootOk(cols, c)
  {
    hide RootOk;
  }

  lemma NotRefused(cols: Collections, id: Id, parent: Id, root: Id)
    requires "" !in cols && UpdateError(cols, id, parent) == NoColError
    ensures !CommitMove(cols, id, parent, root).Refused?
  {
    hide QueryEnds;
  }

  // A move that read its new parent's root, and committed after that parent
  // had moved: both moves passed the check, and the root it carries is stale.
  lemma StaleRootIsCommitted(cols: Collections, x: Id, p: Id, q: Id)
    requires ForestInv(cols) && x != p && p != q && q != x && {x, p, q} <= cols.Keys
    requires cols[x].parent == "" && cols[p].parent == "" && cols[q].parent == ""
    requires ReadMove(cols, x, p) == NoColError && UpdateError(cols, p, q) == NoColError && cols[p].owner == cols[q].owner
    requires var once := CommitMove(cols, p, q, q); once.Committed? ==> UpdateError(once.cols, x, p) == NoColError
    ensures RootNow(cols, x, p) == p && RootNow(cols, p, q) == q
    ensures var once := CommitMove(cols, p, q, q);
      && once.Committed? && ForestInv(once.cols) && ProvenlyOutside(once.cols, x, p)
      && var twice := CommitMove(once.cols, x, p, p);
         && twice.Committed? && LinksInv(twice.cols) && !ForestInv(twice.cols)
         && twice.cols[x].root == p && twice.cols[x].parent == p && twice.cols[p].root == q
  {
    hide NameTaken, UpdateError, CommitMove, ProvenlyOutside, Acyclic, OwnersAgree, RootsCached;
    RootIsCached(cols, p);
    RootMovesBelowRoot(cols, p, q);
    var once := CommitMove(cols, p, q, q).cols;
    ChildOfTopIsOutside(once, x, p);
    MoveReturnsExactly(once, x, p, p);
    StaleSecondMove(once, x, p, q);
  }

  lemma StaleSecondMove(cols: Collections, x: Id, p: Id, q: Id)
    requires ForestInv(cols) && x in cols && p in cols && p != x && cols[p].owner == cols[x].owner && cols[p].root == q != p
    requires UpdateError(cols, x, p) == NoColError && CommitMove(cols, x, p, p) != NeverReturns
    ensures var twice := CommitMove(cols, x, p, p);
      && twice.Committed? && LinksInv(twice.cols) && !ForestInv(twice.cols)
      && twice.cols[x].root == p && twice.cols[x].parent == p && twice.cols[p].root == q
  {
    hide Acyclic, OwnersAgree, AncestorOrSelf, QueryEnds, NameTaken, RootsCached, CommitMove, UpdateError;
    NotRefused(cols, x, p, p);
    CommittedMoveKeepsLinks(cols, x, p, p);
    CommittedMoveKeepsForestExactly(cols, x, p, p);
    MoveFrame(cols, x, p, p);
    ParentStaysOutside(cols, x, p);
  }
}
