// Who may see and write a collection: the row-by-row decision (accessQ) and
// the set-based filter and expression that listings use.

module Access {
  import opened Wrappers
  import opened Model
  import opened Sums

  datatype Level = NoAccess | Read | Write | Owner

  function Rank(l: Level): nat {
    match l case NoAccess => 0 case Read => 1 case Write => 2 case Owner => 3
  }

  // SQL's MAX over a set of values; NULL when there are none.
  predicate IsMax(m: int, s: set<int>) { m in s && forall x :: x in s ==> x <= m }

  lemma {:induction false} MaxExists(s: set<int>)
    requires s != {}
    ensures exists m :: IsMax(m, s)
  {
    var x := Pick(s);
    if s - {x} == {} {
      assert s == {x};
      assert IsMax(x, s);
    } else {
      MaxExists(s - {x});
      var m :| IsMax(m, s - {x});
      var best := if x > m then x else m;
      forall y | y in s ensures y <= best {
        if y != x { assert y in s - {x}; }
      }
      assert IsMax(best, s);
    }
  }

  function SqlMax(s: set<int>): (r: Option<int>)
    ensures r == None <==> s == {}
    ensures r.Some? ==> IsMax(r.value, s)
  {
    if s == {} then None
    else
      MaxExists(s);
      var m :| IsMax(m, s); Some(m)
  }

  // A share made to the user directly or to a group they belong to.
  predicate Matches(t: Tables, k: ShareKey, user: Id) {
    match k.who
    case UserPrincipal(u) => u == user
    case GroupPrincipal(g) => (g, user) in t.members
  }

  function ShareLevel(rw: bool): int { if rw then 2 else 1 }

  predicate ActiveUser(t: Tables, u: Id) { u in t.users && t.users[u].active }

  // accessQ; an unknown collection gives no access (its ErrNotFound never raises it).
  function AccessQ(t: Tables, user: Id, col: Id): Level {
    if user == "" || col !in t.collections then NoAccess
    else
      var c := t.collections[col];
      if !ActiveUser(t, user) then NoAccess
      else if c.owner == user then Owner
      else if !ActiveUser(t, c.owner) then NoAccess
      else
        match SqlMax(set k | k in t.shares.Keys && k.col == c.root && Matches(t, k, user) :: ShareLevel(t.shares[k]))
        case None => NoAccess
        case Some(best) => if best == 2 then Write else if best == 1 then Read else NoAccess
  }

  // accessForQ: system callers own every existing collection.
  function AccessFor(t: Tables, dev: Caller, col: Id): Level {
    if dev.revoked then NoAccess
    else if dev.System() then (if col in t.collections then Owner else NoAccess)
    else AccessQ(t, dev.user, col)
  }

  // mirrorReadOnlyQ: only the mirroring device and system callers write to a mirror.
  predicate MirrorReadOnly(t: Tables, dev: Caller, col: Id) {
    !dev.System() && col in t.collections &&
    t.collections[col].mirror && t.collections[col].mirrorDevice != dev.id
  }

  // accessFilterSQL on one collection row.
  predicate FilterAccepts(t: Tables, user: Id, c: Collection) {
    (c.owner != "" && c.owner == user) ||
    ((exists k | k in t.shares.Keys :: k.col == c.root && Matches(t, k, user)) &&
     c.owner in t.users && t.users[c.owner].active)
  }

  // accessExprSQL on one collection row: the join drops every share of an
  // inactive owner, and COALESCE turns "no row" into 0.
  function ExprLevel(t: Tables, user: Id, c: Collection): int {
    if c.owner != "" && c.owner == user then 3
    else
      match SqlMax(set k | k in t.shares.Keys && c.owner in t.users && t.users[c.owner].active
                            && k.col == c.root && Matches(t, k, user) :: ShareLevel(t.shares[k]))
      case None => 0
      case Some(m) => m
  }

  datatype Scope = All | UserScope(user: Id)

  predicate Visible(t: Tables, sc: Scope, col: Id) {
    col in t.collections && (sc.All? || FilterAccepts(t, sc.user, t.collections[col]))
  }

  // The listing expression is accessQ's level for every active user, whatever
  // the shares, groups and owner status.
  lemma ExprAgrees(t: Tables, user: Id, col: Id)
    requires user != "" && col in t.collections && ActiveUser(t, user)
    ensures ExprLevel(t, user, t.collections[col]) == Rank(AccessQ(t, user, col))
  {
    var c := t.collections[col];
    var direct := set k | k in t.shares.Keys && k.col == c.root && Matches(t, k, user) :: ShareLevel(t.shares[k]);
    var joined := set k | k in t.shares.Keys && c.owner in t.users && t.users[c.owner].active
                            && k.col == c.root && Matches(t, k, user) :: ShareLevel(t.shares[k]);
    if ActiveUser(t, c.owner) {
      assert direct == joined;
    } else {
      assert joined == {};
    }
  }

  // A share of the root: with the user, or with a group that the user is in.
  ghost predicate SharedWith(t: Tables, user: Id, root: Id, rw: bool) {
    || (var k := ShareKey(root, UserPrincipal(user)); k in t.shares && (rw ==> t.shares[k]))
    || exists g :: (g, user) in t.members && GroupShare(t, g, root, rw)
  }

  predicate GroupShare(t: Tables, g: Id, root: Id, rw: bool) {
    var k := ShareKey(root, GroupPrincipal(g));
    k in t.shares && (rw ==> t.shares[k])
  }

  // The rows that the queries join are these shares.
  lemma SharedByMatching(t: Tables, user: Id, root: Id, rw: bool)
    ensures SharedWith(t, user, root, rw) <==> exists k :: k in t.shares && k.col == root && Matches(t, k, user) && (rw ==> t.shares[k])
  {
    if k :| k in t.shares && k.col == root && Matches(t, k, user) && (rw ==> t.shares[k]) {
      match k.who
      case UserPrincipal(u) => assert k == ShareKey(root, UserPrincipal(user));
      case GroupPrincipal(g) => assert k == ShareKey(root, GroupPrincipal(g)) && GroupShare(t, g, root, rw);
    }
    if SharedWith(t, user, root, rw) {
      var k := ShareKey(root, UserPrincipal(user));
      if !(k in t.shares && (rw ==> t.shares[k])) {
        var g :| (g, user) in t.members && GroupShare(t, g, root, rw);
        assert Matches(t, ShareKey(root, GroupPrincipal(g)), user);
      } else {
        assert Matches(t, k, user);
      }
    }
  }

  // Owned, or shared by an active owner.
  ghost predicate Reaches(t: Tables, user: Id, col: Id)
    requires col in t.collections
  {
    var c := t.collections[col];
    c.owner == user || (SharedWith(t, user, c.root, false) && ActiveUser(t, c.owner))
  }

  // The listing filter accepts exactly what accessQ lets an active caller
  // read, whatever the shares, groups and owner status.
  lemma FilterAgrees(t: Tables, user: Id, col: Id)
    requires user != "" && col in t.collections && ActiveUser(t, user)
    ensures FilterAccepts(t, user, t.collections[col]) <==> Rank(AccessQ(t, user, col)) >= Rank(Read)
  {
    FilterAgreesExactly(t, user, col);
  }

  // Over all users they agree exactly where the user is active or neither owns
  // the collection nor has a share of an active owner: the filter does not
  // look at the user's own status, which authentication has checked by then.
  lemma FilterAgreesExactly(t: Tables, user: Id, col: Id)
    requires user != "" && col in t.collections
    ensures (FilterAccepts(t, user, t.collections[col]) <==> Rank(AccessQ(t, user, col)) >= Rank(Read))
       <==> (ActiveUser(t, user) || !Reaches(t, user, col))
  {
    hide SharedWith;
    var c := t.collections[col];
    SharedByMatching(t, user, c.root, false);
    var levels := set k | k in t.shares.Keys && k.col == c.root && Matches(t, k, user) :: ShareLevel(t.shares[k]);
    if k :| k in t.shares.Keys && k.col == c.root && Matches(t, k, user) {
      assert ShareLevel(t.shares[k]) in levels;
    }
  }

  // A disabled owner's row passes the filter; no request of theirs gets there.
  lemma DisabledOwnerPassesFilter() returns (t: Tables, user: Id, col: Id)
    ensures col in t.collections && user in t.users && !t.users[user].active
    ensures FilterAccepts(t, user, t.collections[col]) && AccessQ(t, user, col) == NoAccess
  {
    user, col := "u", "c";
    t := Tables(map[], [], 0, map[], {}, {},
                map[col := Collection("files", "f", "", user, col, false, 1, false, "")],
                map[], {}, map[user := User(false, 0)], map[], map[], map[], 0);
  }

  // The best share decides, direct or through a group: a user who is not the
  // owner may read exactly with some share of the root, and write exactly with
  // a read-write one, while both they and the owner are active.
  lemma BestShareDecides(t: Tables, user: Id, col: Id)
    requires user != "" && col in t.collections && t.collections[col].owner != user
    ensures var both := ActiveUser(t, user) && ActiveUser(t, t.collections[col].owner);
      && (Rank(AccessQ(t, user, col)) >= Rank(Read) <==> both && SharedWith(t, user, t.collections[col].root, false))
      && (Rank(AccessQ(t, user, col)) >= Rank(Write) <==> both && SharedWith(t, user, t.collections[col].root, true))
      && AccessQ(t, user, col) != Owner
  {
    hide SharedWith;
    var root := t.collections[col].root;
    SharedByMatching(t, user, root, false);
    SharedByMatching(t, user, root, true);
    var levels := set k | k in t.shares.Keys && k.col == root && Matches(t, k, user) :: ShareLevel(t.shares[k]);
    assert forall k :: k in t.shares && k.col == root && Matches(t, k, user) ==> ShareLevel(t.shares[k]) in levels;
  }

  // Who may write a collection, from the tables alone: system callers; its
  // active owner; and an active user with a read-write share of the root, while
  // the owner is active. A mirror is written by its own device and by system
  // callers only, and a revoked caller writes nothing.
  lemma WritersExactly(t: Tables, dev: Caller, col: Id)
    requires col in t.collections
    ensures var c := t.collections[col];
      Rank(AccessFor(t, dev, col)) >= Rank(Write) && !MirrorReadOnly(t, dev, col) <==>
        && !dev.revoked
        && (dev.System() || (
              && dev.user != "" && dev.user in t.users && t.users[dev.user].active
              && (c.owner == dev.user || (c.owner in t.users && t.users[c.owner].active && SharedWith(t, dev.user, c.root, true)))
              && (c.mirror ==> c.mirrorDevice == dev.id)))
  {
    hide SharedWith;
    if dev.user != "" && t.collections[col].owner != dev.user { BestShareDecides(t, dev.user, col); }
  }

  // Reading, the same: any share of the root will do, and a mirror is read by all.
  lemma ReadersExactly(t: Tables, dev: Caller, col: Id)
    requires col in t.collections
    ensures var c := t.collections[col];
      Rank(AccessFor(t, dev, col)) >= Rank(Read) <==>
        && !dev.revoked
        && (dev.System() || (
              && dev.user != "" && dev.user in t.users && t.users[dev.user].active
              && (c.owner == dev.user || (c.owner in t.users && t.users[c.owner].active && SharedWith(t, dev.user, c.root, false)))))
  {
    hide SharedWith;
    if dev.user != "" && t.collections[col].owner != dev.user { BestShareDecides(t, dev.user, col); }
  }
}
