// The rows of the metadata database, as values.

module Model {
  import opened Wrappers

  type Id = string
  type Hash = string

  // Object metadata: its length in bytes, its SHA-256, and the blob hashes it
  // names, in the order they are visited (repeats included).
  datatype RawMeta = Meta(size: nat, hash: Hash, named: seq<Hash>)
  type Meta = m: RawMeta | "" !in m.named witness Meta(0, "", [])

  // SHA-256 of no bytes.
  const SHA_OF_NOTHING: Hash := "e3b0c44298fc1c149afbf4c8996fb92427ae41e4649b934ca495991b7852b855"
  // SHA-256 of {}.
  const SHA_OF_BRACES: Hash := "44136fa355b3678a1146ad16f7e8649e94fb4fc21fe77e8310c060f61caaff8a"

  // The metadata {} that stands in for none.
  function EmptyMeta(): Meta { Meta(2, SHA_OF_BRACES, []) }

  datatype Op = Create | Update | Delete | OtherOp

  datatype Object = Object(
    col: Id, kind: string, rev: nat, hash: Hash, metaHash: Hash, blob: Hash,
    size: int, charged: int, origin: Id, meta: Meta, deleted: bool)

  datatype Entry = Entry(
    seqNo: nat, oid: Id, col: Id, op: Op, rev: nat, hash: Hash, metaHash: Hash, dev: Id, key: string)

  datatype Blob = Blob(size: nat, refcount: int)

  datatype Collection = Collection(
    kind: string, name: string, parent: Id, owner: Id, root: Id,
    deleted: bool, rev: nat, mirror: bool, mirrorDevice: Id)

  datatype Principal = UserPrincipal(id: Id) | GroupPrincipal(id: Id)
  datatype ShareKey = ShareKey(col: Id, who: Principal)

  datatype User = User(active: bool, quota: int)

  // A paired device row: it runs the sync protocol, or was revoked.
  datatype DeviceRow = DeviceRow(sync: bool, revoked: bool)

  // The authenticated caller of a request.
  datatype Caller = Caller(id: Id, user: Id, admin: bool, revoked: bool) {
    // A synthetic, user-less admin device.
    predicate System() { user == "" && admin }
  }

  // The messages a pushed item can be refused with.
  datatype PushError =
    | NoError
    | InvalidId                // invalid id
    | InvalidOp                // invalid op
    | MetadataHashMismatch     // metadata hash mismatch
    | CollectionNotFound       // collection not found
    | CollectionDeleted        // collection deleted
    | Unauthorized             // unauthorized
    | MirrorReadOnlyError      // read-only mirror
    | ObjectIdInUse            // object id in use
    | NotFound                 // not found
    | BlobMissing              // sync: blob missing or hash mismatch
    | ContentHashMismatch      // sync: content_hash must equal blob_id for blob-backed objects
    | MetadataTooLarge         // metadata too large
    | InvalidSize              // invalid size
    | QuotaExceeded            // quota exceeded

  datatype Status = Ok | Conflict | Error
  datatype PushResult = PushResult(
    oid: Id, status: Status, rev: nat, seqNo: nat, serverRev: nat, serverHash: Hash, error: PushError)
  datatype IdemRow = IdemRow(dev: Id, results: seq<PushResult>)

  datatype Input = Input(
    oid: Id, col: Id, kind: string, op: Op, base: nat, hash: Hash, metaHash: Hash,
    metadata: Option<Meta>, blob: Hash, size: int, force: bool)

  datatype Tables = Tables(
    objects: map<Id, Object>,
    journal: seq<Entry>,
    lastSeq: nat,                      // AUTOINCREMENT high-water mark, never reused
    blobs: map<Hash, Blob>,
    files: set<Hash>,                  // blob files on disk
    blobRefs: set<(Id, Hash)>,         // (user, hash)
    collections: map<Id, Collection>,
    shares: map<ShareKey, bool>,       // true: read-write
    members: set<(Id, Id)>,            // (group, user)
    users: map<Id, User>,
    devices: map<Id, DeviceRow>,
    acks: map<Id, nat>,
    idem: map<string, IdemRow>,
    maxBlob: int)                      // Store.MaxBlob

  // MAX(seq) over the journal, 0 when it is empty; journals are kept in seq order.
  function HeadSeq(j: seq<Entry>): nat {
    if j == [] then 0 else j[|j| - 1].seqNo
  }

  // MetadataBlobIDs: the named hashes without repeats, in order of first appearance.
  function Distinct(s: seq<Hash>): (d: seq<Hash>)
    ensures forall h :: h in d <==> h in s
    ensures forall i, j :: 0 <= i < j < |d| ==> d[i] != d[j]
  {
    if s == [] then []
    else
      var d := Distinct(s[..|s| - 1]);
      assert s == s[..|s| - 1] + [s[|s| - 1]];
      if s[|s| - 1] in d then d else d + [s[|s| - 1]]
  }

  function Extra(m: Meta): set<Hash> { set h | h in m.named }

  // Crockford base 32, either case: no I, L, O or U.
  predicate UlidChar(c: char) {
    ('0' <= c <= '9') ||
    ('A' <= c <= 'Z' && c != 'I' && c != 'L' && c != 'O' && c != 'U') ||
    ('a' <= c <= 'z' && c != 'i' && c != 'l' && c != 'o' && c != 'u')
  }

  // ids.Valid: a 26-character ULID that fits in 128 bits.
  predicate ValidId(s: Id) {
    |s| == 26 && s[0] <= '7' && forall i :: 0 <= i < 26 ==> UlidChar(s[i])
  }
}
