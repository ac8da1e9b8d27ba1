// Collection names: what the unique index keeps over every run, and exactly
// what it refuses.

module Names {
  import opened Wrappers
  import opened Model
  import opened Forest
  import opened Server

  // Two live collections of one owner and kind, side by side.
  predicate Siblings(a: Collection, b: Collection) {
    !a.deleted && !b.deleted && a.owner != "" && a.owner == b.owner && a.kind == b.kind && a.parent == b.parent
  }

  ghost predicate NamesUnique(cols: Collections) {
    forall a, b {:trigger Siblings(cols[a], cols[b])} ::
      a in cols && b in cols && a != b && Siblings(cols[a], cols[b]) ==> cols[a].name != cols[b].name
  }

  // One row against the others.
  ghost predicate NameFree(cols: Collections, row: Collection, self: Id) {
    forall c :: c in cols && c != self && Siblings(cols[c], row) ==> cols[c].name != row.name
  }

  lemma OneRowDecides(cols: Collections, id: Id, row: Collection)
    requires NamesUnique(cols)
    ensures NamesUnique(cols[id := row]) <==> NameFree(cols, row, id)
  {
    var cols' := cols[id := row];
    if NameFree(cols, row, id) {
      forall a, b | a in cols' && b in cols' && a != b && Siblings(cols'[a], cols'[b]) ensures cols'[a].name != cols'[b].name {
        if a == id {
          assert Siblings(cols[b], row);
        } else if b != id {
          assert Siblings(cols[a], cols[b]);
        }
      }
    }
    if NamesUnique(cols') {
      forall c | c in cols && c != id && Siblings(cols[c], row) ensures cols[c].name != row.name {
        assert Siblings(cols'[c], cols'[id]);
      }
    }
  }

  lemma TakenIsNotFree(cols: Collections, row: Collection, self: Id, skipped: Id)
    requires !row.deleted && (skipped == self || (self !in cols && skipped !in cols))
    ensures NameTaken(cols, row.owner, row.kind, row.parent, row.name, skipped) <==> !NameFree(cols, row, self)
  {
    if NameTaken(cols, row.owner, row.kind, row.parent, row.name, skipped) {
      var c :| c in cols && c != skipped && !cols[c].deleted && cols[c].owner == row.owner && cols[c].kind == row.kind
               && cols[c].parent == row.parent && cols[c].name == row.name;
      assert Siblings(cols[c], row);
    }
  }

  // ---- what is refused --------------------------------------------------------

  // A create is refused as a name that exists exactly if the new row would
  // stand beside a live row of the same name.
  lemma InsertIsRefusedExactly(cols: Collections, id: Id, owner: Id, kind: string, name: string, parent: Id, root: Id)
    requires "" !in cols && id !in cols && NamesUnique(cols)
    ensures InsertError(cols, owner, kind, name, parent) == NameExists <==> !NamesUnique(Insert(cols, id, owner, kind, name, parent, root))
    ensures InsertError(cols, owner, kind, name, parent) in {NoColError, NameExists}
  {
    hide NamesUnique, NameFree, NameTaken;
    var row := Collection(kind, name, parent, owner, root, false, 1, false, "");
    TakenIsNotFree(cols, row, id, "");
    OneRowDecides(cols, id, row);
  }

  // So is a move.
  lemma MoveIsRefusedExactly(cols: Collections, id: Id, parent: Id)
    requires id in cols && !cols[id].deleted && NamesUnique(cols)
    ensures UpdateError(cols, id, parent) == NameExists <==> !NamesUnique(Relink(cols, id, parent))
    ensures UpdateError(cols, id, parent) in {NoColError, NameExists}
  {
    hide NamesUnique, NameFree, NameTaken;
    var row := cols[id].(parent := parent, rev := cols[id].rev + 1);
    TakenIsNotFree(cols, row, id, id);
    OneRowDecides(cols, id, row);
  }

  // A rename gives a live row its new name and changes nothing else of its
  // place, unless the name is empty or that of a live row beside it.
  lemma RenameHappensExactly(cols: Collections, id: Id, name: string)
    requires id in cols && NamesUnique(cols)
    ensures var cols' := Rename(cols, id, name);
      && cols'.Keys == cols.Keys && (forall c :: c in cols && c != id ==> cols'[c] == cols[c])
      && (cols'[id] == cols[id].(name := name, rev := cols[id].rev + 1) || cols' == cols)
      && (cols' != cols <==> name != "" && !cols[id].deleted && NamesUnique(cols[id := cols[id].(name := name)]))
  {
    hide NamesUnique, NameFree, NameTaken;
    if !cols[id].deleted {
      TakenIsNotFree(cols, cols[id].(name := name), id, id);
      OneRowDecides(cols, id, cols[id].(name := name));
    }
  }

  // ---- every run ----------------------------------------------------------------

  lemma SameNames(c0: Collections, c1: Collections)
    requires NamesUnique(c0) && c1.Keys == c0.Keys && forall c :: c in c0 ==> c1[c] == c0[c].(root := c1[c].root)
    ensures NamesUnique(c1)
  {
    forall a, b | a in c1 && b in c1 && a != b && Siblings(c1[a], c1[b]) ensures c1[a].name != c1[b].name {
      assert Siblings(c0[a], c0[b]);
    }
  }

  lemma MoveKeepsNames(cols: Collections, id: Id, parent: Id, root: Id)
    requires NamesUnique(cols)
    ensures NamesUnique(AfterMove(cols, id, parent, root))
  {
    hide NamesUnique, NameTaken, AncestorOrSelf, QueryEnds;
    if CommitMove(cols, id, parent, root).Committed? {
      MoveIsRefusedExactly(cols, id, parent);
      SameNames(Relink(cols, id, parent), Rerooted(cols, id, parent, root));
    }
  }

  lemma RenameKeepsNames(cols: Collections, id: Id, name: string)
    requires NamesUnique(cols)
    ensures NamesUnique(Rename(cols, id, name))
  {
    hide NamesUnique, NameFree, NameTaken;
    if id in cols && !cols[id].deleted {
      var row := cols[id].(name := name, rev := cols[id].rev + 1);
      TakenIsNotFree(cols, row, id, id);
      OneRowDecides(cols, id, row);
    }
  }

  // A row that only changes its flags stays where it is, or is deleted.
  lemma FlagsKeepNames(cols: Collections, id: Id, row: Collection)
    requires NamesUnique(cols) && id in cols
    requires row == cols[id].(deleted := row.deleted, rev := row.rev, mirror := row.mirror, mirrorDevice := row.mirrorDevice)
    requires cols[id].deleted ==> row.deleted
    ensures NamesUnique(cols[id := row])
  {
    forall c | c in cols && c != id && Siblings(cols[c], row) ensures cols[c].name != row.name {
      assert Siblings(cols[c], cols[id]);
    }
    OneRowDecides(cols, id, row);
  }

  lemma TombstoneKeepsNames(t: Tables, id: Id)
    requires NamesUnique(t.collections)
    ensures NamesUnique(Tombstone(t, id).collections)
  {
    hide NamesUnique;
    if id in t.collections && !t.collections[id].deleted {
      FlagsKeepNames(t.collections, id, t.collections[id].(deleted := true, rev := t.collections[id].rev + 1));
    }
  }

  lemma MirrorKeepsNames(cols: Collections, id: Id, on: bool, d: Id)
    requires NamesUnique(cols)
    ensures NamesUnique(Mirror(cols, id, on, d))
  {
    hide NamesUnique;
    if id in cols && !cols[id].deleted {
      FlagsKeepNames(cols, id, cols[id].(mirror := on, mirrorDevice := d, rev := cols[id].rev + 1));
    }
  }

  lemma CreateKeepsNames(t: Tables, a: Action)
    requires "" !in t.collections && NamesUnique(t.collections) && a.DoCreate? && a.id !in t.collections
    ensures NamesUnique(Next(t, a).collections)
  {
    hide NamesUnique, InsertError, Insert;
    InsertIsRefusedExactly(t.collections, a.id, a.owner, a.kind, a.name, a.parent, a.root);
  }

  lemma EditKeepsNames(t: Tables, a: Action)
    requires NamesUnique(t.collections) && (a.DoMove? || a.DoTombstone? || a.DoRename? || a.DoMirror?)
    ensures NamesUnique(Next(t, a).collections)
  {
    hide NamesUnique, AfterMove, Tombstone, Rename, Mirror;
    match a
    case DoMove(id, parent, root) => MoveKeepsNames(t.collections, id, parent, root);
    case DoTombstone(id) => TombstoneKeepsNames(t, id);
    case DoRename(id, name) => RenameKeepsNames(t.collections, id, name);
    case DoMirror(id, on, d) => MirrorKeepsNames(t.collections, id, on, d);
  }

  lemma NextKeepsNames(t: Tables, a: Action)
    requires "" !in t.collections && NamesUnique(t.collections) && Environment(t, a)
    ensures NamesUnique(Next(t, a).collections)
  {
    hide NamesUnique, Next;
    if a.DoCreate? {
      CreateKeepsNames(t, a);
    } else if a.DoMove? || a.DoTombstone? || a.DoRename? || a.DoMirror? {
      EditKeepsNames(t, a);
    } else {
      CollectionsStay(t, a);
    }
  }

  // Over every run no two live collections of one owner, kind and parent have
  // the same name, whatever comes between the reads and the write of a request.
  lemma {:induction false} RunKeepsNames(s: Srv, run: seq<Step>)
    requires SrvInv(s) && NamesUnique(s.t.collections) && PossibleRun(s, run)
    ensures NamesUnique(RunAll(s, run).t.collections)
    decreases |run|
  {
    hide SrvInv, NamesUnique, Next, Environment;
    if run != [] {
      var front, e := run[..|run| - 1], run[|run| - 1];
      RunKeepsNames(s, front);
      RunsKeepInv(s, front);
      NoEmptyId(RunAll(s, front));
      if e.Writes? { NextKeepsNames(RunAll(s, front).t, e.a); }
    }
  }

  lemma NoEmptyId(s: Srv)
    requires SrvInv(s)
    ensures "" !in s.t.collections
  {
    InvParts(s.t);
  }

  // ---- a create and a move with nothing in between -----------------------------------

  // A create succeeds exactly with a kind and a name, below nothing or a live
  // collection, where the name is free among the live ones beside it.
  lemma CreateHappensExactly(cols: Collections, id: Id, owner: Id, kind: string, name: string, parent: Id)
    requires "" !in cols && id !in cols && NamesUnique(cols)
    ensures var at := OwnerNow(cols, owner, parent);
      ReadCreate(cols, kind, name, parent) == NoColError && InsertError(cols, at, kind, name, parent) == NoColError <==>
        && kind != "" && name != "" && (parent != "" ==> parent in cols && !cols[parent].deleted)
        && NamesUnique(Insert(cols, id, at, kind, name, parent, RootNow(cols, id, parent)))
  {
    hide NamesUnique, InsertError, Insert;
    InsertIsRefusedExactly(cols, id, OwnerNow(cols, owner, parent), kind, name, parent, RootNow(cols, id, parent));
  }

  // A move succeeds exactly for a live collection, to the top or to a
  // collection of the same owner that is not at or below it, where the name is
  // free; and it leaves a forest with unique names.
  lemma MoveHappensExactly(cols: Collections, id: Id, parent: Id)
    requires ForestInv(cols) && NamesUnique(cols) && id in cols && id != ""
    ensures var moved := CommitMove(cols, id, parent, RootNow(cols, id, parent));
      && (ReadMove(cols, id, parent) == NoColError && moved.Committed? <==>
            && !cols[id].deleted
            && (parent != "" ==> parent in cols && cols[parent].owner == cols[id].owner && !AncestorOrSelf(cols, id, parent))
            && NamesUnique(Relink(cols, id, parent)))
      && (ReadMove(cols, id, parent) == NoColError && moved.Committed? ==> ForestInv(moved.cols) && NamesUnique(moved.cols))
  {
    hide NamesUnique, Acyclic, OwnersAgree, RootsCached, AncestorOrSelf, QueryEnds, UpdateError, ProvenlyOutside, CommitMove;
    if !cols[id].deleted && (parent != "" ==> parent in cols && cols[parent].owner == cols[id].owner) {
      MoveIsRefusedExactly(cols, id, parent);
      if UpdateError(cols, id, parent) == NoColError {
        MoveReturnsExactly(cols, id, parent, RootNow(cols, id, parent));
        NotRefused(cols, id, parent, RootNow(cols, id, parent));
        TopIsProvenlyOutside(cols, id);
        if parent != "" { OutsideExactly(cols, id, parent); }
        CommittedHere(cols, id, parent);
      } else {
        RefusedHere(cols, id, parent);
      }
    }
  }

  lemma TopIsProvenlyOutside(cols: Collections, id: Id)
    ensures ProvenlyOutside(cols, id, "")
  {
    assert Up(cols, "", 0) == "";
    assert CleanChain(cols, id, "", 0);
  }

  lemma RefusedHere(cols: Collections, id: Id, parent: Id)
    requires UpdateError(cols, id, parent) != NoColError
    ensures CommitMove(cols, id, parent, RootNow(cols, id, parent)).Refused?
  {
    hide UpdateError;
  }

  lemma CommittedHere(cols: Collections, id: Id, parent: Id)
    requires ForestInv(cols) && NamesUnique(cols) && id in cols && (parent != "" ==> parent in cols && cols[parent].owner == cols[id].owner)
    ensures var moved := CommitMove(cols, id, parent, RootNow(cols, id, parent));
      moved.Committed? ==> ForestInv(moved.cols) && NamesUnique(moved.cols)
  {
    hide NamesUnique, Acyclic, RootsCached, CommitMove, OwnersAgree;
    var root := RootNow(cols, id, parent);
    if CommitMove(cols, id, parent, root).Committed? {
      ToldHere(cols, id, parent);
      CommittedMoveKeepsForestExactly(cols, id, parent, root);
      MoveKeepsNames(cols, id, parent, root);
    }
  }

  lemma ToldHere(cols: Collections, id: Id, parent: Id)
    requires ForestInv(cols) && id in cols && (parent != "" ==> parent in cols && cols[parent].owner == cols[id].owner)
    ensures Told(cols, id, cols[id].owner, parent, RootNow(cols, id, parent))
  {
    hide Acyclic;
    if parent != "" { assert OwnerOk(cols, parent); }
  }
}
