# Nubilo: a verified model of the sync engine and its small state machines

Nubilo keeps files, calendars and contacts of several users on one server and
replicates them to devices. This project models the part of it whose
correctness is spread over many functions, and proves what the code and its
integrity check promise.

**The server** (`Model`, `PushSpec`, `Store`, `Server`). The tables are one
value, `Model.Tables`: objects, the sequenced journal with its never reused
counter, blobs with reference counts, blob files, per-user blob references,
collections, shares, groups, users, devices, acks and stored push answers.
`Store.Engine` is the same tables as fields that its methods update in place,
one method per function of the engine, each proved equal to a specification
on values (`PushSpec.ApplyOne`, `Idempotency.Push`, `Changes.GetChanges`,
`Gc.Collect`, `Forest.CommitMove` and so on). The lemmas are about these
specifications. One write transaction is one step; so is one collection of
garbage. Creating and moving a collection are two steps, as in the code: the
request reads its rows, and later writes with what it read (`Server.Step`).

**What holds of the tables.** `Refs`: each blob's count is the recount over
live objects. `Chain`: each object's journal entries are its revisions, in
order. `Quota`: stored charges are exact, and a batch takes no owner past the
quota, except by the one kind of item that `QuotaExact` describes.
`Idempotency`: copies of a push have the effect and the answer of one. `Access`
and `Changes`: the set-based listings agree with the row-by-row decision, and
pages are complete and masked. `Forest` and `Tree`: parent links stay acyclic
whatever commits, roots stay cached exactly if each write carries the current
root, and a tree is deleted whole, exactly if the caller may delete all of it.
`Names`: what the unique name index keeps and refuses. `Gc`: collection and
repair keep all of it. `Outcomes`: when a pushed item is accepted, as rules
instead of a sequence of checks; `Errors`: that the messages are true. `Server`
puts every kind of write together and lifts this to every run, with other
writes coming between the reads and the write of a request.

**The protocol** (`Sync`, `Agent`). The server and its devices run in any
interleaving: pages are fetched, applied change by change, acknowledged and
saved as separate steps, each of which can fail or crash, while other devices
push and garbage is collected. From one invariant over every run follow
convergence and the safety of compaction. `Acks`: what devices have acknowledged
over every run, and that nothing is kept for longer. `Agent.Agent` is the pull
loop itself.

**Small state machines.** `Nonce`: the replay cache with its skew arithmetic
on 64 bits. `Update`: installing a release, proving it, going back. `Stream`:
the sealed backup stream. `Lru`: the byte-bounded cache. `Limiter`: the
sliding window filtered in place. `Invite`: packing and reading invite codes.

`Ids`: which texts are ids. `Wrappers` and `Sums` are helpers (an optional value,
and sums over maps).

Check everything with `dafny verify dfyconfig.toml` (Dafny 4.11).

## Where the code falls short of a plain reading

Each point is a lemma with a concrete state or an exact condition.

- A move whose new parent has meanwhile come to lie below the moved collection
  never returns: its recursive query keeps duplicates (UNION ALL), so it goes
  round the cycle its own transaction has just made, holding the write lock.
  Nothing is committed. Two moves that both passed `IsAncestor` get there
  (`Forest.RacingMoveNeverReturns`). It happens exactly when `IsAncestor` would
  say yes at the time of the write (`Forest.MoveReturnsExactly`), so no
  committed move makes a cycle, also one that was not checked or was checked by
  the 32 steps of internal/dav/fs.go (`Forest.CommittedMoveKeepsLinks`).
- Creates and moves read the parent's root before they write it. If the parent
  moves in between, the row is committed with a root that is out of date, and
  the shares of the old root still govern it (`Server.StaleRootIsReachable`).
  The roots stay cached along a run exactly if every write carries the root its
  parent has when it commits (`Server.RunKeepsForestExactly`).
- With such a root, deleting a tree can stop half way although the caller may
  delete all of it: a collection deleted first can take the share with it that
  a later one is written by (`Tree.StaleShareStopsDeletion`). Where roots are
  cached, and for owners always, it stops exactly if the caller may not delete
  something in it (`Store.Engine.DeleteCollectionTree`).
- An update that moves a live object out of a tombstoned collection is checked
  for its growth only, although its owner is charged for all of it from then
  on. This is exactly how an item passes the quota
  (`QuotaExact.ItemKeepsQuotaExactly`), and a push between listing and
  tombstoning a collection makes it possible (`QuotaExact.EscapeIsReachable`).
  It cannot happen while live objects are in live collections
  (`QuotaExact.NothingEscapes`); a tree deletion without such a push keeps that
  (`Tree.TreeKeepsPlaces`).
- Compaction can put a valid cursor past the head, which `integrity.Check`
  then reports and the client takes for a restored server, as the comment at
  internal/agent/sync.go:102-104 says (`Gc.CollectCanStrandACursor`; exactly
  when: `Gc.CursorsBehindHeadExactly`). No data is lost
  (`Sync.NoDeleteIsHidden`).
- After a restart a request stamped in the future can be accepted once more,
  although the comment at internal/auth/auth.go:242-246 says that it cannot
  (`Nonce.FutureStampRepeats`; exactly when: `Nonce.AcceptedAgainExactly`). That comment also dates the
  guard from the first request; the code dates it from `Start`.
- The absolute distance of a stamp from the clock overflows for one stamp
  (`Nonce.WithinSkewExactly`), which is then accepted twice
  (`Nonce.WrappedStampRepeats`).
- A backup stream cut right after a frame's length, or right after its nonce,
  ends in a plain EOF (`Stream.CutPassesForWholeExactly`).
- `Guard` tests for more attempts than are ever recorded
  (`Update.GuardActsExactly`).
- An invite code typed without its prefix is lost when it reads like the
  prefix (`Invite.UnprefixedSpelling`).

## Model

| member | source | states |
|---|---|---|
| Sync.EveryObjectIsCurrentOrComing | internal/agent/sync.go:89-178 | Convergence, in every reachable state of server, devices, pages in flight, failures and crashes: each object either has a journal entry past the device's cursor, or the device holds exactly the server's revision, hash, metadata and blob (nothing, if it is deleted) |
| Sync.SyncedDeviceEqualsServer | internal/agent/sync.go:89-135 | A device whose cursor has reached the head of the journal has the same live objects as the server, with the same data |
| Sync.NoDeleteIsHidden | internal/integrity/gc.go:147-188 | Over every run, whatever a non-revoked sync device still holds is still a row on the server, and a tombstoned one still has its delete in the journal past the device's cursor: compaction hides no delete, also when a device crashes between Ack and SetCursor or the head drops below a cursor |
| Sync.RunsKeepSysInv | internal/agent/sync.go:89-178 | All server tables and all devices stay consistent in every state of every run |
| Sync.StepKeepsInv | internal/agent/sync.go:89-178 | One step of the server or of a device keeps that consistency, whatever the other devices are doing |
| Sync.FetchKeepsClient | internal/syncengine/engine.go:151-250 | A fetched page covers every object the device may be behind on, up to the page's end |
| Sync.HandleKeepsClient | internal/agent/sync.go:137-178 | Applying a change, or failing to, in any order with concurrent server writes, never leaves a copy ahead of the server or different at the same revision |
| Sync.AckKeepsClient | internal/agent/sync.go:117-121 | An ack is sent only when everything it acknowledges is in the replica or on its way, so a tombstone behind it is gone from the device |
| Sync.CompactionKeepsClient | internal/integrity/gc.go:25-79 | Collect removes only tombstones that no device holds and no page in flight can bring back |
| Acks.AckIsRecorded | internal/syncengine/engine.go:675-699 | An ack within the head is recorded and a stored one never lowered; one past it, or negative, and other devices' acks change nothing |
| Acks.CursorsAreAcked | internal/agent/sync.go:117-134 | In every reachable state each device has acknowledged all that its saved cursor is past |
| Acks.CaughtUpLeavesNoTombstone | internal/integrity/gc.go:25-79 | Over any run, once every sync device has read to the head, Collect leaves exactly the live objects |
| Sync.PushOwnKeepsClient | internal/agent/sync.go:307-345 | A device's own accepted push leaves it consistent with the server while the result waits to be recorded |
| Sync.KeepOwnKeepsClient | internal/agent/sync.go:346-371 | Recording that result later leaves no copy ahead of the server or different at the same revision, whatever other writes came in between |
| Sync.OwnPushIsCurrent | internal/agent/sync.go:307-371 | A device that recorded its accepted push holds the object exactly as the server does, or no longer |
| Agent.Agent.Apply | internal/agent/sync.go:137-178 | The replica after one change: a delete removes the object, an older copy is replaced, a copy at least as new with the same hash stays |
| Agent.Agent.AckAndSave | internal/agent/sync.go:117-134 | A page end past the cursor is acknowledged, unless a higher one was, and then saved; no other ack changes |
| Agent.Agent.PullPage | internal/agent/sync.go:91-134 | One turn of the loop moves a cursor past the head back to it, or applies the page, acks its end (never lowering an ack), saves it and leaves strictly less to read; the acks are exactly that; without more to read, nothing is left |
| Agent.Agent.Pull | internal/agent/sync.go:89-135 | The pull loop ends; with no push meanwhile the replica equals the server, the cursor is at the head, and exactly the device's own ack is raised to the head if there was anything to read |
| Server.NextKeepsInv | internal/integrity/verify.go:63-225 | Every single server write (push, late commit, upload, ack, collect, repair, the insert of a create, the commit of a move, tombstone, rename, mirror, admin changes, pairing, revocation) keeps reference counts, journal chains, charges, key scoping, parent links without cycles and one owner in each tree; a create or move carries what its request read, which may be out of date |
| Server.RunsKeepInv | internal/integrity/verify.go:63-225 | Every state of every run from a consistent start is consistent, whatever is written between the reads and the write of a request |
| Server.StepKeepsSrvInv | internal/integrity/verify.go:63-225 | One step, the reads of a request or its write, keeps all of it and what every pending request knows of the rows it read |
| Server.NextKeepsForestExactly | internal/syncengine/lookup.go:300-327 | A write keeps every cached root exactly if it is not a create or a committed move, or carries the root its parent has at that moment |
| Server.RunKeepsForestExactly | internal/syncengine/lookup.go:287-328 | Along a run every state has its roots cached if and only if every create and committed move carries the root its parent has when it commits |
| Server.StaleRootIsReachable | internal/syncengine/lookup.go:290-306 | From the empty server a run of properly guarded moves (x reads the root of p, p moves below q, x moves below p) ends with a stale root |
| Server.TombstoneUntilCompacted | internal/syncengine/engine.go:475-480 | Over any run a tombstone stays exactly as it is until it is compacted |
| Server.AckKeepsInv | internal/syncengine/engine.go:675-699 | Recorded acks stay those of known devices, within the sequence numbers handed out |
| Outcomes.AcceptedExactly | internal/syncengine/engine.go:318-587 | An item changes its object if and only if it is well formed, the caller may write where it goes and comes from (same owner), the object is absent (create) or live and at the base revision or forced, every newly named blob is stored, on disk and held by the caller, and size, metadata and quota allow it |
| Outcomes.ConflictExactly | internal/syncengine/engine.go:394-403 | The answer is a conflict exactly when the item may be placed but its object is deleted, has moved on, or is in the way of a create by someone who can read it |
| Outcomes.AnswerSays | internal/syncengine/engine.go:394-410 | A conflict tells exactly the object's revision and hash on the server, no other answer does; an error has a message and no revision |
| Errors.ErrorsAreTrue | internal/syncengine/engine.go:318-603 | Every error message is true of the item: the rule it names is broken |
| Outcomes.AnswersStayInside | internal/syncengine/engine.go:396-403 | Revision and hash of an existing object are told only to callers who can read its collection |
| Outcomes.AcceptedStoresInput | internal/syncengine/engine.go:394-587 | An accepted create or update stores the input's collection, hashes, blob, metadata and size (that of the stored blob, if there is one); an accepted delete keeps its object's data and collection; no other object changes |
| Outcomes.PushedIsPulled | internal/syncengine/engine.go:151-587 | What a caller pushed is what the next pull reads: one change past the old end of the journal, with the answer's sequence number and revision, the data of the input, and size, kind and hashes as stored |
| Outcomes.DeleteTwice | internal/syncengine/engine.go:552-557 | Deleting a tombstone is answered ok with its revision and changes no table |
| Outcomes.EnsureAllExactly | internal/syncengine/engine.go:589-603 | Checking blobs one after the other, with the references the owner gains on the way, accepts exactly when each blob is attachable at the start |
| Outcomes.ResultsInOrder | internal/syncengine/engine.go:269-275 | Result i of a batch answers item i, on what the items before it left |
| Outcomes.OwnerHoldsWhatIsNamed | internal/syncengine/engine.go:589-603 | After an accepted item the owner of its collection holds every blob it newly names |
| QuotaExact.UploadLetsAttach | internal/store/blobs.go:182-201 | After an upload its user may attach the blob, and nobody else who could not before |
| QuotaExact.UploadedFileIsAccepted | internal/syncengine/engine.go:418-470 | The next push of a new file with an uploaded blob is accepted exactly if it fits size and quota |
| Writes.DecisionsAreValid | internal/syncengine/engine.go:318-587 | Every effective write, whichever operation made it, follows its object by one revision, never revives a tombstone, names only stored blobs, charges exactly what it stores, stays with its owner and inside the quota; a rejected item writes nothing but blob references |
| Refs.PutKeepsRefs | internal/syncengine/engine.go:621-645 | After any effective write each blob's count again equals the recount over live objects, and every live reference has a blob row |
| Refs.CountsMoveExactly | internal/store/blobs.go:155-179 | A write moves each count by exactly the uses it removes and adds: the clamp at zero in DecBlobRef never decides |
| Chain.PutKeepsJournal | internal/syncengine/engine.go:779-788 | After any effective write the journal holds exactly revisions 1 to the object's, in increasing sequence order, the last with its hashes |
| Chain.RevisionsAreUnique | internal/integrity/verify.go:89-93 | Two journal entries of one object and revision are the same entry |
| Chain.RevisionsAreComplete | internal/syncengine/engine.go:779-788 | Every revision of a stored object has a journal entry |
| Chain.TombstoneIsFrozen | internal/syncengine/engine.go:475-480 | No item of any caller changes a tombstone |
| Chain.TombstoneSurvivesBatch | internal/syncengine/engine.go:269-275 | No batch changes a tombstone |
| Chain.UnforcedWriteIsNext | internal/syncengine/engine.go:481-486 | No lost update: an effective write without force read the revision it replaces, and its entry is the only one that made the next revision |
| Chain.StaleBaseNeverWrites | internal/syncengine/engine.go:481-486 | Once an object has moved past a base, no unforced write on that base takes effect |
| Quota.BatchKeepsQuota | internal/syncengine/quota.go:36-105 | After a whole batch each owner's usage is at most the larger of the quota and the usage before, if tombstoned collections hold no live objects; owners whose collections the batch never names keep their usage |
| Quota.ItemKeepsQuota | internal/syncengine/engine.go:424-437 | The same for one item, and only the owner of the named collection can change at all |
| Quota.PutKeepsCharges | internal/syncengine/quota.go:36-63 | Stored charges stay size plus metadata plus each distinct extra blob once, through every write |
| Quota.MoveOutOfTombstonedCollectionEscapes | internal/syncengine/engine.go:506-513 | For any ids there is a state in which moving a live object out of a tombstoned collection is accepted and passes the quota |
| QuotaExact.ItemKeepsQuotaExactly | internal/syncengine/engine.go:424-513 | An item takes a limited owner past the larger of quota and usage before if and only if it is an accepted update that moves a live object the owner is not charged for into a collection of theirs, at a charge that does not fit |
| QuotaExact.BatchItemExactly | internal/syncengine/engine.go:269-275 | The same for each item of a batch, on what the earlier ones left |
| QuotaExact.BatchKeepsQuotaUnlessEscaped | internal/syncengine/quota.go:36-105 | A batch without such an item keeps the bound as a whole |
| QuotaExact.NothingEscapes | internal/syncengine/quota.go:91-105 | With live objects in live collections only, no item escapes |
| QuotaExact.CreateIsCharged | internal/syncengine/quota.go:36-105 | An accepted create adds exactly what it stores to its owner's usage and to nobody else's |
| QuotaExact.DeleteFreesCharge | internal/syncengine/quota.go:91-105 | An accepted delete frees exactly the object's charge, if its collection is live |
| QuotaExact.EscapeIsReachable | internal/syncengine/tree.go:37-63 | A push between ListObjects and TombstoneCollection leads, in a run from the empty server, to a state where an item escapes |
| Idempotency.ScopedKeysAreInjective | internal/syncengine/engine.go:262-263 | Scoped keys are equal exactly when device and key are, as device ids have no colon |
| Idempotency.ReplaysAreInvisible | internal/syncengine/engine.go:252-296 | Any history of deliveries, with copies in any order and copies that missed the cache, ends in the state of its first copies alone |
| Idempotency.CopiesGetTheSameAnswer | internal/syncengine/engine.go:264-295 | Every copy gets the stored answer of the first, whatever came between and whatever items the copy carries |
| Idempotency.KeyIsNeverReused | internal/syncengine/engine.go:298-316 | A stored answer always belongs to the device that asks, so the foreign-key error never happens |
| Idempotency.RepliesExactly | internal/syncengine/engine.go:252-296 | Which replies a push gets: a bad batch exactly if empty or over 500 items; a refused push changes nothing; a first one carries out all items and keeps their results |
| Changes.NextPageIsTheRest | internal/syncengine/engine.go:151-250 | The next page starts where this one ends: what follows NextSeq is exactly what was not returned, and HasMore says whether that is empty |
| Changes.WalkIsComplete | internal/syncengine/engine.go:205-250 | Following NextSeq from any cursor, at any page size, yields every journal entry the caller sees exactly once in sequence order |
| Changes.RowShowsObject | internal/syncengine/engine.go:151-243 | The row of an entry shows the entry and the object as stored, in full, unless the object has moved where the caller cannot read |
| Changes.OneCollection | internal/syncengine/engine.go:165-203 | Asking for one collection gives exactly its rows of the whole feed |
| Changes.PageSize | internal/syncengine/engine.go:151-250 | 200 changes by default, 500 at most, never more than asked; HasMore only on a full page; NeedReconcile exactly past the head |
| Changes.RowsInOrder | internal/syncengine/engine.go:151-203 | The rows are in strictly increasing order, all past the cursor and at most the head |
| Changes.PagesAreMasked | internal/syncengine/engine.go:217-243 | A page shows an active caller no metadata, blob or size of an object whose current collection they cannot read |
| Changes.FullReaderSeesAll | internal/syncengine/engine.go:151-203 | A user who can read every collection gets the feed of system tooling |
| Access.ExprAgrees | internal/syncengine/access.go:55-66 | The listing expression gives every active user accessQ's level, for all shares, groups and owner states |
| Access.FilterAgrees | internal/syncengine/access.go:48-53 | The listing filter accepts exactly what accessQ lets an active caller read, for all shares, groups and owner states |
| Access.FilterAgreesExactly | internal/syncengine/access.go:48-53 | For any caller the two agree exactly when the caller is active, or neither owns the collection nor has a share of its root from an active owner |
| Access.DisabledOwnerPassesFilter | internal/syncengine/access.go:48-53 | The filter does not look at the caller's own status; authentication refuses such a caller's devices before it is asked |
| Access.BestShareDecides | internal/syncengine/access.go:127-168 | A user who is not the owner may read exactly with a share of the root made to them or to a group they are in, and write exactly with a read-write one, while both they and the owner are active |
| Access.WritersExactly | internal/syncengine/access.go:110-168 | Who may write: system callers; the active owner; an active user with a read-write share of the root, direct or through a group, of an active owner; a mirror only by its own device or system callers; a revoked caller never |
| Access.ReadersExactly | internal/syncengine/access.go:110-168 | Who may read: the same with any share, and a mirror by all of them |
| Access.SharedByMatching | internal/syncengine/access.go:48-66 | The share rows the queries join are those made to the user or to a group the user is in |
| Gc.CollectRemovesExactly | internal/integrity/gc.go:39-72 | Collect drops exactly the blob rows no live object uses, with their files and references, and no other |
| Gc.AllAcknowledged | internal/integrity/gc.go:25-79 | With everything acknowledged by every sync device, Collect leaves exactly the live objects |
| Gc.CollectKeepsRefs | internal/integrity/gc.go:25-79 | Counts still equal the recount after Collect |
| Gc.CollectKeepsJournal | internal/integrity/gc.go:170-188 | Journal chains of the remaining objects are whole after compaction |
| Gc.CollectKeepsCharges | internal/integrity/gc.go:25-79 | The stored charges of live objects stay exact when blobs are removed |
| Gc.CursorsBehindHeadExactly | internal/integrity/verify.go:63-225 | After Collect every cursor is within the head, as the integrity check asks, exactly when some surviving entry is at or past each ack (or none survives) |
| Gc.CollectCanStrandACursor | internal/integrity/gc.go:147-188 | Compaction can lower the head below an ack that was valid |
| Gc.RepairRestores | internal/integrity/verify.go:243-270 | From any state the repair makes every blob row's count the recount, keeps sizes, and changes nothing exactly when nothing was wrong |
| Forest.OutsideExactly | internal/syncengine/tree.go:18-32 | On a forest IsAncestor says no exactly when the collection is not the other or above it |
| Forest.RootIsTopmost | internal/syncengine/engine.go:67-113 | root_id is the topmost ancestor, which is its own root and has the same owner |
| Forest.AccessIsRootAccess | internal/syncengine/access.go:127-168 | Access to a collection, and its visibility in listings, is that of its root |
| Forest.InsertKeepsLinks | internal/syncengine/engine.go:67-113 | Inserting a collection keeps the links acyclic and trees with one owner, also if its parent was moved or deleted since it was read |
| Forest.InsertKeepsForestExactly | internal/syncengine/engine.go:87-113 | The insert keeps the roots cached if and only if the root it carries is the one its parent has then |
| Forest.QueryEndsExactly | internal/syncengine/lookup.go:319-325 | The recursive query of a move, which keeps duplicates, ends if and only if the new parent is not the moved collection or below it: exactly when IsAncestor says no |
| Forest.MoveReturnsExactly | internal/syncengine/lookup.go:308-327 | So a move that is not refused commits if and only if IsAncestor would say no on the state it commits to; otherwise it never returns |
| Forest.CommittedMoveKeepsLinks | internal/syncengine/lookup.go:287-328 | Every committed move, guarded or not and whatever root it read, leaves links without cycles and trees with one owner |
| Forest.CommittedMoveKeepsForestExactly | internal/syncengine/lookup.go:300-327 | A committed move keeps all roots cached if and only if the root it carries is the one its parent has then |
| Forest.RacingMoveNeverReturns | internal/syncengine/tree.go:14-32 | Check and move are separate: of two moves that both passed the check, one under the other, the second never ends and commits nothing |
| Forest.StaleRootIsCommitted | internal/syncengine/lookup.go:290-306 | Two moves that both passed the check and make no cycle commit a root that is out of date |
| Names.RunKeepsNames | internal/store/migrate.go:213-216 | Over every run no two live collections of one owner, kind and parent have the same name |
| Names.InsertIsRefusedExactly | internal/syncengine/engine.go:101-113 | A create is refused as a name that exists if and only if the new row would stand beside a live one of that name |
| Names.MoveIsRefusedExactly | internal/syncengine/lookup.go:309-318 | So is a move |
| Names.RenameHappensExactly | internal/syncengine/lookup.go:266-283 | A rename takes effect if and only if the collection is live, the name is not empty and no live row beside it has it; it changes nothing else |
| Names.CreateHappensExactly | internal/syncengine/engine.go:67-113 | With nothing in between, a create succeeds if and only if it has kind and name, goes below nothing or a live collection, and the name is free there |
| Names.MoveHappensExactly | internal/syncengine/lookup.go:287-328 | With nothing in between, a move succeeds if and only if the collection is live, the new parent is of the same owner and not at or below it, and the name is free there; it leaves a forest with unique names |
| Forest.MoveFrame | internal/syncengine/lookup.go:287-328 | A committed move changes one parent and, for what is below, the cached root; every other row is as it was |
| Forest.RevisitNeverEnds | internal/syncengine/tree.go:18-32 | A walk that meets a collection twice never reaches the top, so answering yes there is right |
| Tree.TreeSplits | internal/syncengine/lookup.go:83-113 | The tree reached by live same-kind links is its top and the trees of its children |
| Tree.SiblingsAreDisjoint | internal/syncengine/tree.go:37-47 | The trees of two children never meet |
| Tree.TreeUnchanged | internal/syncengine/tree.go:42-47 | Deleting one tree leaves every tree outside it as it was |
| Tree.TreeFreesItsBlobs | internal/syncengine/tree.go:37-63 | After a deletion of a tree each blob's count is lower by exactly the references of the removed objects |
| Tree.TreeKeepsPlaces | internal/syncengine/tree.go:37-63 | A deleted tree leaves no live object in a tombstoned collection |
| Tree.ForcedDeleteExactly | internal/syncengine/engine.go:552-587 | A forced delete of a live object is answered ok if and only if the ids are valid, its collection is live and the caller may write it |
| Tree.ForestKeepsAccess | internal/syncengine/tree.go:37-63 | Where roots are cached, no access to a collection of the tree hangs on a share of one inside it |
| Tree.OwnerKeepsAccess | internal/syncengine/tree.go:37-63 | Nor for system callers and the owner, whatever roots are cached |
| Tree.StaleShareStopsDeletion | internal/syncengine/tree.go:37-63 | It can with a stale root: a caller who may delete everything in a tree loses their access to one child when the child beside it goes first |
| Store.Engine.DeleteOne | internal/syncengine/tree.go:48-61 | One forced delete under a fresh key; ok if and only if the ids are valid, the collection is live and the caller may write it |
| Store.MetadataBlobIDs | internal/store/meta_blobs.go:34-65 | The blob hashes a metadata names, each exactly once |
| Store.NewExtraBlobs | internal/syncengine/engine.go:607-619 | The hashes the new metadata names and the old does not |
| Store.Engine.IncBlobRef | internal/store/blobs.go:155-171 | The count of one blob grows by one; an unknown blob is an error |
| Store.Engine.DecBlobRef | internal/store/blobs.go:173-179 | The count of one blob falls by one, never below zero |
| Store.Engine.AddBlobRef | internal/store/blobs.go:204-210 | A user gains a reference once |
| Store.Engine.EnsureBlob | internal/syncengine/engine.go:651-673 | The verdict on one blob, and the owner's reference when it may be attached |
| Store.Engine.EnsureExtraBlobs | internal/syncengine/engine.go:589-603 | Stops at the first blob that may not be attached, keeping the references gained before it |
| Store.Engine.AdjustExtraBlobRefs | internal/syncengine/engine.go:621-645 | Blobs only the old metadata names lose a reference, those only the new names gain one |
| Store.Engine.Charge | internal/syncengine/quota.go:36-63 | The loop over named blobs computes size plus metadata plus each distinct extra blob once |
| Store.Engine.OwnerUsage | internal/syncengine/quota.go:91-105 | The sum of the charges of the owner's live objects in live collections |
| Store.Engine.QuotaOk | internal/syncengine/quota.go:70-89 | The overflow-free comparison says exactly that usage plus growth is within the quota, or that there is none |
| Store.Engine.InsertJournal | internal/syncengine/engine.go:779-788 | One entry under the next sequence number, never a used one |
| Store.Engine.WriteRow | internal/syncengine/engine.go:434-466 | The row, the counts of the blobs it stops and starts using, and the journal entry, as one effective write |
| Store.Engine.ApplyItem | internal/syncengine/engine.go:318-587 | One item, step by step, does what the decision says and answers it; an unknown blob never surfaces in the last step |
| Store.Engine.ApplyBatch | internal/syncengine/engine.go:269-275 | The items in order, each on what the earlier ones left |
| Store.Engine.CommitBatch | internal/syncengine/engine.go:269-295 | One transaction that stores its results, or rolls back and answers with the stored ones if the key was taken |
| Store.Engine.PushItems | internal/syncengine/engine.go:252-296 | The whole call, with its batch limits and the cached answer |
| Store.Engine.LoadIdempotent | internal/syncengine/engine.go:298-316 | The stored answer of a key, or the error of a foreign one |
| Store.Engine.ReadChanges | internal/syncengine/engine.go:151-250 | The loop over rows, the masking pass and the cut give the page of the feed |
| Store.Engine.MaskMoved | internal/syncengine/engine.go:217-243 | Looking each moved-to collection up once masks the same rows as looking every row up |
| Store.Engine.AckSeq | internal/syncengine/engine.go:675-699 | An ack is refused when negative or past the head, and never lowers a stored one |
| Store.Engine.LiveBlobRefs | internal/integrity/verify.go:36-61 | The recount over live objects |
| Store.Engine.MinSyncAck | internal/integrity/gc.go:81-127 | The least ack of the non-revoked sync devices, 0 for one that never acked, the head if there is none |
| Store.Engine.CompactableTombstones | internal/integrity/gc.go:147-168 | The tombstones whose last entry is at or before that ack |
| Store.Engine.DeleteTombstones | internal/integrity/gc.go:170-188 | Exactly those rows and their journal entries go |
| Store.Engine.CollectGarbage | internal/integrity/gc.go:25-79 | The report lists the unused blobs and compactable tombstones; with apply they go, without it nothing changes |
| Store.Engine.RepairCounts | internal/integrity/verify.go:243-270 | Every count becomes the recount; the answer is the number of rows that differed |
| Store.Engine.IsAncestor | internal/syncengine/tree.go:18-32 | The walk ends on any parent links and says no exactly on reaching the top without meeting the collection |
| Store.Engine.ParentOfNew | internal/syncengine/engine.go:67-100 | The error, or the owner and root a new collection takes from its parent |
| Store.Engine.InsertCollection | internal/syncengine/engine.go:101-113 | The new row, or the unique-name error and no row |
| Store.Engine.RootForMove | internal/syncengine/lookup.go:287-306 | The error, or the root read from the new parent |
| Store.Engine.WriteParent | internal/syncengine/lookup.go:307-328 | The new parent and the roots of what is below it are committed; nothing changes on an error or while the recursive query still runs |
| Store.RowsBelow | internal/syncengine/lookup.go:319-325 | Round by round, without remembering what it met: an empty round ends it with exactly what is at or below the moved collection |
| Store.Engine.TombstoneCollection | internal/syncengine/lookup.go:330-349 | A live collection is marked deleted and its shares go |
| Store.Engine.EmptyCollection | internal/syncengine/tree.go:48-61 | Forced deletes of every live object of one collection, each under a key of its own; it succeeds if and only if the ids are valid, the collection is live and the caller may write it (or there is nothing to delete) |
| Store.Engine.DeleteCollectionTree | internal/syncengine/tree.go:37-63 | The recursion ends on a forest; it succeeds if and only if every collection of the tree is live and the caller may delete what is in it, unless their access hangs on a share inside the tree; then the tree is tombstoned without live objects, and all other collections and objects are unchanged |
| Store.LeastAckDecides | internal/integrity/gc.go:81-168 | Comparing with the least ack is comparing with every sync device's ack |
| Nonce.AtMostOnce | internal/auth/auth.go:153-273 | Within one process, anywhere in a run with restarts and sweeps, no device's nonce is accepted twice with the same or an earlier stamp, if at most one skew window passes between stamp check and cache, the lock is taken in clock order and the subtraction of the stamp does not wrap |
| Nonce.AcceptedAgainExactly | internal/auth/auth.go:223-273 | Across a restart: what an earlier process accepted is accepted again if and only if its stamp is not from before the restart, is still within the skew, and was not used since |
| Nonce.FutureStampRepeats | internal/auth/auth.go:223-273 | Such a run: a request stamped half a minute ahead is accepted by a process and, after a restart, by the next one |
| Nonce.WrappedStampRepeats | internal/auth/auth.go:165-171 | The stamp 2^63 below the clock passes the skew check and, three minutes after Start, is accepted twice |
| Nonce.WithinSkewExactly | internal/auth/auth.go:165-171 | With 64-bit wrap-around the skew check passes exactly within the skew, or for the one stamp whose distance wraps to itself |
| Nonce.AcceptedAfterStart | internal/auth/auth.go:223-254 | After a start anywhere in a run, that process accepts no request whose stamp is from before it |
| Nonce.FirstAfterStartExactly | internal/auth/auth.go:247-273 | The first request after Start passes exactly when its stamp is within the skew and not from before Start: a stamp from the future is accepted by the next process too |
| Nonce.CacheIsBounded | internal/auth/auth.go:255-271 | The cache never holds more than 2^20 nonces |
| Nonce.BusyMeansFull | internal/auth/auth.go:255-271 | A request is turned away as busy only when 2^20 nonces are held and none is older than two skews: a full cache is swept first |
| Nonce.FreshIsAccepted | internal/auth/auth.go:247-273 | A genuine request with an unused nonce is refused only if signed before the start or when the cache is full |
| Nonce.ForgedChangesNothing | internal/auth/auth.go:153-196 | A request that is not genuine is refused and leaves the cache as it was, so no later answer depends on it |
| Nonce.Authenticator.Start | internal/auth/auth.go:223-238 | Start makes the cache once and keeps the first start time |
| Nonce.Authenticator.Sweep | internal/auth/auth.go:255-262 | The loop drops exactly the nonces older than the cutoff |
| Nonce.Authenticator.ConsumeNonce | internal/auth/auth.go:247-273 | The cache and the answer after one nonce, in the order of the checks |
| Nonce.Authenticator.AuthenticateRequest | internal/auth/auth.go:153-196 | Skew first, then the device's checks, then the nonce; the default skew is set on the way |
| Update.AtMostThreeStarts | internal/update/install.go:243-266 | Over every run, a swapped-in version that never reports healthy passes Boot at most three times |
| Update.StartGetsCloser | internal/update/install.go:243-289 | Each start of an unproved update, guarded or not, brings the previous version strictly closer, until it runs |
| Update.FourthStartGoesBack | internal/update/install.go:258-261 | After three starts the next one puts the previous binary back, and the one after that opens data with the schema of before the install |
| Update.LateStartGoesBack | internal/update/install.go:272-289 | A guarded start past the deadline restores the previous binary and its schema at once |
| Update.GuardActsExactly | internal/update/install.go:277-287 | The guard acts exactly on a pending rollback or past the deadline: its limit on attempts never decides, as no fourth attempt is ever recorded |
| Update.DoneOnlyWhenProved | internal/update/install.go:291-299 | An update becomes done only from verifying, by its own version while serving |
| Update.HealthyIsFinal | internal/update/install.go:292-299 | A version that reports healthy while being proved makes its update done, and no later start, guarded or not, changes anything |
| Update.PreviousVersionFindsItsSchema | internal/update/install.go:327-350 | Over every run, also with a failed or interrupted swap, the previous version only ever runs on the schema recorded at the install |
| Update.RestoreKeepsNewerData | internal/update/install.go:324-336 | Going back keeps the database, unless its schema changed, then it is the saved one; the wired state is the saved one, if any |
| Update.InstallRecords | internal/update/install.go:150-193 | A swap leaves the new binary, the previous one beside it, binary and database saved, and a record with no attempts; the live data is untouched |
| Update.RunsKeepInv | internal/update/install.go:141-350 | The recorded update agrees with the binaries and the database in every reachable state |
| Update.DataDir.InstallRelease | internal/update/install.go:141-193 | The files after an install that failed its preflight, failed to swap, was interrupted, or succeeded |
| Update.DataDir.BootServer | internal/update/install.go:243-266 | Boot's effect in each phase, and whether to restart |
| Update.DataDir.GuardStart | internal/update/install.go:272-289 | Guard's effect in each phase |
| Update.DataDir.StartService | internal/service/service.go:190-203 | One start by the service manager: the guard before it, if installed, then the binary |
| Update.DataDir.KeepStarting | internal/service/service.go:190-203 | If starts keep failing on an update that was not proved, at most five of them end with the previous version running on the schema of before the install, however the data was migrated meanwhile |
| Update.DataDir.ReportHealthy | internal/update/install.go:292-299 | Healthy's effect |
| Update.DataDir.RollBackNow | internal/update/install.go:305-322 | Rollback takes the binary kept beside, else the saved one |
| Update.DataDir.Restore | internal/update/install.go:327-350 | restoreData's effect on database, wired state and record |
| Stream.StreamRoundTrip | internal/backup/stream.go:31-161 | Reading complete frames through buffers of any sizes gives their bytes in order and then EOF, and enough reads get there |
| Stream.WritesRoundTrip | internal/backup/stream.go:31-161 | Any writes, then Close, at any chunk size up to the maximum and under any nonces: reading through buffers of any sizes gives all the written bytes in order, then EOF |
| Stream.CutStreamGivesPrefix | internal/backup/stream.go:119-161 | Reading a cut stream gives at most the plaintext of its whole frames, a prefix of what was written |
| Stream.CutPassesForWholeExactly | internal/backup/stream.go:139-151 | A cut stream ends in a plain EOF, as a complete one, exactly when it is cut right after a frame's length or right after its nonce |
| Stream.BadFrameIsAnError | internal/backup/stream.go:151-161 | Behind whole frames, one that does not open is an error, never an end, whatever follows; the reader gets exactly what was before it |
| Stream.ReadsFollowDrain | internal/backup/stream.go:119-161 | For any stream and any buffer sizes the reads deliver what the frames say, in order, and fail only after all of it |
| Stream.ChunkEncWriter.Write | internal/backup/stream.go:46-67 | Write takes all of its input, sealing full frames; a closed stream refuses it and is unchanged |
| Stream.ChunkEncWriter.FlushChunk | internal/backup/stream.go:69-85 | One more sealed frame, under any fresh nonce |
| Stream.ChunkEncWriter.Close | internal/backup/stream.go:87-101 | The stream is complete and holds exactly what was written; closing again changes nothing |
| Stream.ChunkDecReader.Read | internal/backup/stream.go:119-161 | The bytes, the error and the reader's state after one Read; the buffer beyond them is untouched |
| Stream.ChunkDecReader.ReadFrame | internal/backup/stream.go:128-157 | The next frame, or the error for each way it can be missing or wrong |
| Lru.LruBytes.Lookup | internal/server/thumbs.go:182-191 | A held entry moves to the front and its value is returned |
| Lru.LruBytes.Insert | internal/server/thumbs.go:193-213 | A put that fits replaces its key, goes to the front and keeps the longest recent part that fits; one that does not fit changes nothing |
| Lru.LruBytes.DropBack | internal/server/thumbs.go:206-212 | The last entry leaves list and map, and its cost leaves the total |
| Lru.LruBytes.Evict | internal/server/thumbs.go:206-212 | The loop ends, always finding a last entry, and never drops the newest |
| Lru.TrimIsLongest | internal/server/thumbs.go:206-212 | What is kept is the longest prefix of the recency order within the limit |
| Lru.TrimKeepsFirst | internal/server/thumbs.go:197-212 | The newest entry is never evicted |
| Lru.HeldByRecency | internal/server/thumbs.go:182-213 | After any run entries stand by last use, and whatever left was last used before all that is held |
| Lru.HeldIsLastPut | internal/server/thumbs.go:182-213 | After any run each value held is that of the last fitting put of its key |
| Lru.HeldFits | internal/server/thumbs.go:193-213 | After any run the entries cost at most the limit |
| Lru.PutIsFound | internal/server/thumbs.go:182-213 | A put that fits is found by the next get; one that does not changes nothing |
| Limiter.AcceptedAreSpread | internal/server/util.go:39-57 | Over any run with a non-decreasing clock the (i+n)-th accepted call is at least a window after the i-th |
| Limiter.DeniedExactly | internal/server/util.go:39-57 | A call is denied exactly when n accepted calls lie strictly inside the window |
| Limiter.IpLimiter.Filter | internal/server/util.go:44-50 | Filtering in place, overwriting the array it reads, keeps exactly the times inside the window, in order |
| Limiter.IpLimiter.Append | internal/server/util.go:55-55 | One more time, in place or in a larger array |
| Limiter.IpLimiter.Allow | internal/server/util.go:39-57 | The decision and the recorded times of one address; other addresses keep theirs |
| Invite.NewInviteCode | internal/identity/invites.go:54-72 | Although the accumulator wraps at 32 bits, character k stands for exactly bits 5k to 5k+4 of the random bytes |
| Invite.SameCodeExactly | internal/identity/invites.go:54-72 | Two codes are equal exactly when their first 100 random bits are |
| Invite.NewCodeIsRead | internal/identity/invites.go:54-104 | A new code is normalised to its own 20 characters |
| Invite.PrefixedSpelling | internal/identity/invites.go:74-104 | Every spelling behind the prefix (any case, dashes, spaces, O for 0, I or L for 1, outer white space) is read as its code |
| Invite.NormalizeExactly | internal/identity/invites.go:74-104 | A text is read as a code exactly when what is left without white space and prefix spells it |
| Invite.UnprefixedSpelling | internal/identity/invites.go:77-79 | A spelling without the prefix is read as its code exactly when it does not itself look prefixed |
| Invite.SeparatorsDoNotCount | internal/identity/invites.go:82-84 | A dash or a space more or less anywhere in a code changes nothing |
| Invite.SpaceAroundDoesNotCount | internal/identity/invites.go:74-76 | White space around a code changes nothing |
| Ids.ValidIdExactly | internal/ids/ids.go:24-28 | An id is valid exactly if it is 26 characters of Crockford base 32, in either case, whose number fits 128 bits |
| Invite.ReadingIsSpelling | internal/identity/invites.go:80-104 | The loop accepts exactly the spellings of its result |
| Invite.NormalizeInviteCode | internal/identity/invites.go:74-104 | The loop with its early exit computes the normal form |
| Invite.TakesFive | internal/identity/invites.go:63-70 | The five bits taken from the wrapped accumulator are the next five of the input |

## Left out

- SQL, SQLite and floating point: tables are maps and sets, TOTAL is an exact sum. A transaction is atomic and does not fail for reasons of its own.
- One IsAncestor walk reads one state of the collections, and so do the two reads of a move; between the walk, these reads and the write anything can happen.
- Store.Engine.WriteParent: takes the number of rounds the recursive query is given so far, since a loop without end is not a Dafny method; that it ends in no number of rounds is `Forest.QueryEndsExactly`.
- Requests of disabled users: disabling a user revokes their devices (internal/identity/users.go:226-228) and authentication refuses them (internal/identity/identity.go:96, internal/auth/auth.go:176), so `Access.DisabledOwnerPassesFilter` is about the filter alone.
- Widths of sequence numbers, revisions and sizes: they are unbounded, except in the skew check of `Nonce` and the accumulator of `Invite`.
- Cryptography: SHA-256 values come with the input, signatures are a yes or no, and the backup cipher is any pair of functions in which opening undoes sealing.
- JSON: a metadata is its length, its hash and the blob hashes it names, none of them empty, in one order. The code visits them in the order of a Go map, which can differ between two calls; which references a rejected item gains on the way depends on it, and nothing else does.
- Timestamps, `object_history`, audit records, collection preferences and collection metadata: no modelled decision reads them.
- Hash spelling: hashes are compared as given, without lower-casing.
- `ids.New` is any key the device has not used yet; `ids.Valid` is written out as 26 Crockford characters that fit 128 bits.
- Hello, Reconcile, ListObjectsPage, SetShare and RemoveShare as operations: shares, groups and users change freely between steps of a run.
- Uploading a blob is one step that stores file, row and reference; writing and hashing the bytes is not modelled. Removing a blob takes row and file together, ignoring unlink errors as the code does.
- A push or an upload in the middle of Collect: Collect is one step.
- Server restore from backup and the client's reconcile, which break journal monotonicity by design.
- What the agent does to local files, its routes by collection kind and the names it skips: a replica is keyed by object id and belongs to a client that sees every collection. Uploading the blob before its own push is a step of the server.
- Store.Engine.DeleteCollectionTree: runs without interleaved writes, with the ranks of the forest as ghost parameters; when it fails midway only the invariants are promised, because the source undoes nothing. Where the caller's access hangs on a share inside the tree (`Tree.KeepsAccess` fails), whether it succeeds depends on the order of the children, which is not modelled.
- Nonce.AtMostOnce: assumes at most one skew window between stamp check and cache, a clock that does not go back, and a stamp whose distance from the clock fits 64 bits (else `Nonce.WrappedStampRepeats`).
- Parsing the authorization header, the admin token and reading the body: whether a request is genuine is one answer.
- Update: takes file copies to succeed and Rollback to be one step; a failing copy is modelled for the swap alone. The database is readable whenever its schema is read. Pruning of old backups, the relay's update and the manager's schedule are not part of this model.
- Errors of the writer or reader under a backup stream, other than its end.
- Mutexes of the cache and the limiter: one call is one step. The limiter's clock does not go back.
- Inviting and redeeming, upload tokens, HTTP, DAV, images, setup, service files and the user interface.
