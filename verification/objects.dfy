/** The eight object kinds, what the program's types promise of their fields, and the
    canonical form that sorting gives an object before it is written. */
module Objects {
  import opened Octets
  import opened Sorting

  type Id = Bytes

  datatype RecipientState = Granted | Revoked
  datatype RecipientEntry = RecipientEntry(key: Bytes, epoch: nat, state: RecipientState)
  datatype ProtectPrefix = ProtectPrefix(prefix: Bytes, recipients: seq<RecipientEntry>)
  datatype WrappedKey = WrappedKey(recipientId: Bytes, wrappedDek: Bytes)
  datatype EntryKind = FileEntry | DirEntry
  datatype TreeEntry = TreeEntry(name: Bytes, kind: EntryKind, id: Id, mode: nat, perms: byte)
  datatype SecretRef = SecretRef(name: Bytes, id: Id)
  datatype WrapSet = WrapSet(id: Id, keys: seq<WrappedKey>)

  /** `secrets` and `wrapped` are ordered maps, held here in their iteration order. */
  datatype Snapshot = Snapshot(
    root: Id, parents: seq<Id>, author: Bytes, timestamp: int, message: Bytes,
    secrets: seq<SecretRef>, prefixes: seq<ProtectPrefix>, wrapped: seq<WrapSet>)

  datatype Secret = Secret(name: Bytes, nonce: Bytes, ciphertext: Bytes, keys: seq<WrappedKey>)

  datatype Transcript = Transcript(
    snapshot: Id, agent: Bytes, session: Bytes, nonce: Bytes, ciphertext: Bytes,
    keys: seq<WrappedKey>)

  datatype Manifest = Manifest(
    base: Id, prev: Option<Id>, anchors: seq<Id>, closure: seq<Id>, indexCt: Bytes,
    kekWraps: seq<WrappedKey>)

  datatype Object =
    | Blob(content: Bytes)
    | Tree(entries: seq<TreeEntry>)
    | SnapshotObject(snap: Snapshot)
    | SecretObject(secret: Secret)
    | Signature(signed: Id, signer: Bytes, sig: Bytes)
    | TranscriptObject(transcript: Transcript)
    | Sealed(payload: Bytes)
    | ManifestObject(manifest: Manifest)

  /** Bytes charged to the store's budget. */
  function BlobSize(o: Object): nat {
    match o
    case Blob(b) => |b|
    case Sealed(p) => |p|
    case _ => 0
  }

  // ---- what the field types promise ------------------------------------------

  predicate IsId(b: Bytes) { |b| == 32 }
  predicate Short(b: Bytes) { |b| < U32 }
  predicate Text(b: Bytes) { Short(b) && ValidUtf8(b) }

  predicate WrapTyped(w: WrappedKey) { Text(w.recipientId) && Short(w.wrappedDek) }
  predicate WrapsTyped(ws: seq<WrappedKey>) { |ws| < U32 && forall i :: 0 <= i < |ws| ==> WrapTyped(ws[i]) }
  predicate EntryTyped(e: TreeEntry) { Text(e.name) && IsId(e.id) && e.mode < U32 }
  predicate RegisterTyped(r: RecipientEntry) { IsId(r.key) && r.epoch < U32 }
  predicate PrefixTyped(p: ProtectPrefix) {
    && Text(p.prefix) && |p.recipients| < U32
    && forall i :: 0 <= i < |p.recipients| ==> RegisterTyped(p.recipients[i])
  }
  predicate SecretRefTyped(s: SecretRef) { Text(s.name) && IsId(s.id) }
  predicate WrapSetTyped(w: WrapSet) { IsId(w.id) && WrapsTyped(w.keys) }
  predicate IdsTyped(ids: seq<Id>) { |ids| < U32 && forall i :: 0 <= i < |ids| ==> IsId(ids[i]) }

  function SecretName(s: SecretRef): Bytes { s.name }
  function WrapSetId(w: WrapSet): Bytes { w.id }
  function PrefixName(p: ProtectPrefix): Bytes { p.prefix }
  function RegisterKey(r: RecipientEntry): Bytes { r.key }
  function IdKey(id: Id): Bytes { id }

  predicate SnapshotTyped(s: Snapshot) {
    && IsId(s.root) && IdsTyped(s.parents) && Text(s.author) && -I63 <= s.timestamp < I63 && Text(s.message)
    && |s.secrets| < U32 && (forall i :: 0 <= i < |s.secrets| ==> SecretRefTyped(s.secrets[i]))
    && |s.prefixes| < U32 && (forall i :: 0 <= i < |s.prefixes| ==> PrefixTyped(s.prefixes[i]))
    && |s.wrapped| < U32 && (forall i :: 0 <= i < |s.wrapped| ==> WrapSetTyped(s.wrapped[i]))
    && Ascending(s.secrets, SecretName) && Ascending(s.wrapped, WrapSetId)
  }

  /** The value could be held by the program's types, with every length below 2^32. */
  predicate Typed(o: Object) {
    match o
    case Blob(_) => true
    case Sealed(_) => true
    case Tree(es) => |es| < U32 && forall i :: 0 <= i < |es| ==> EntryTyped(es[i])
    case SnapshotObject(s) => SnapshotTyped(s)
    case SecretObject(s) => Text(s.name) && Short(s.nonce) && Short(s.ciphertext) && WrapsTyped(s.keys)
    case Signature(id, signer, sig) => IsId(id) && |signer| == 32 && |sig| == 64
    case TranscriptObject(t) =>
      && IsId(t.snapshot) && Text(t.agent) && Text(t.session)
      && Short(t.nonce) && Short(t.ciphertext) && WrapsTyped(t.keys)
    case ManifestObject(m) =>
      && IsId(m.base) && (m.prev.Some? ==> IsId(m.prev.value))
      && IdsTyped(m.anchors) && IdsTyped(m.closure) && Short(m.indexCt) && WrapsTyped(m.kekWraps)
  }

  ghost predicate RegistersDistinct(p: ProtectPrefix) { KeysDetermine(p.recipients, RegisterKey) }

  /** Typed, and no prefix holds two different registers for one key: the register sort is
      unstable, so only then is the written order determined. */
  ghost predicate WellFormed(o: Object) {
    && Typed(o)
    && (o.SnapshotObject? ==> forall i :: 0 <= i < |o.snap.prefixes| ==> RegistersDistinct(o.snap.prefixes[i]))
  }

  // ---- canonical form --------------------------------------------------------

  function CanonPrefix(p: ProtectPrefix): ProtectPrefix {
    p.(recipients := Sort(p.recipients, RegisterKey))
  }

  function CanonEach(ps: seq<ProtectPrefix>): (qs: seq<ProtectPrefix>)
    ensures |qs| == |ps|
    ensures forall i :: 0 <= i < |ps| ==> qs[i] == CanonPrefix(ps[i])
  {
    if ps == [] then [] else [CanonPrefix(ps[0])] + CanonEach(ps[1..])
  }

  /** The value whose fields are in the order the encoder writes them. */
  function Canon(o: Object): Object {
    match o
    case SnapshotObject(s) => SnapshotObject(s.(prefixes := CanonEach(Sort(s.prefixes, PrefixName))))
    case ManifestObject(m) =>
      ManifestObject(m.(anchors := Sort(m.anchors, IdKey), closure := Sort(m.closure, IdKey)))
    case _ => o
  }

  lemma {:induction false} SortKeepsTyped<T>(xs: seq<T>, key: T -> Bytes, p: T -> bool)
    requires forall i :: 0 <= i < |xs| ==> p(xs[i])
    ensures forall i :: 0 <= i < |Sort(xs, key)| ==> p(Sort(xs, key)[i])
  {
    SortSpec(xs, key);
    forall i | 0 <= i < |Sort(xs, key)| ensures p(Sort(xs, key)[i]) {
      assert Sort(xs, key)[i] in multiset(Sort(xs, key));
      assert Sort(xs, key)[i] in xs;
    }
  }

  lemma CanonKeepsTyped(o: Object)
    requires Typed(o)
    ensures Typed(Canon(o)) && BlobSize(Canon(o)) == BlobSize(o)
  {
    match o
    case SnapshotObject(s) =>
      var ps := Sort(s.prefixes, PrefixName);
      SortSpec(s.prefixes, PrefixName);
      SortKeepsTyped(s.prefixes, PrefixName, PrefixTyped);
      forall i | 0 <= i < |ps| ensures PrefixTyped(CanonPrefix(ps[i])) {
        SortSpec(ps[i].recipients, RegisterKey);
        SortKeepsTyped(ps[i].recipients, RegisterKey, RegisterTyped);
      }
    case ManifestObject(m) =>
      SortSpec(m.anchors, IdKey);
      SortSpec(m.closure, IdKey);
      SortKeepsTyped(m.anchors, IdKey, IsId);
      SortKeepsTyped(m.closure, IdKey, IsId);
    case _ =>
  }

  lemma CanonIdempotent(o: Object)
    ensures Canon(Canon(o)) == Canon(o)
  {
    match o
    case SnapshotObject(s) =>
      var ps := Sort(s.prefixes, PrefixName);
      var qs := CanonEach(ps);
      SortSpec(s.prefixes, PrefixName);
      assert Sorted(qs, PrefixName);
      SortOfSorted(qs, PrefixName);
      forall i | 0 <= i < |qs| ensures CanonPrefix(qs[i]) == qs[i] {
        SortSpec(ps[i].recipients, RegisterKey);
        SortOfSorted(qs[i].recipients, RegisterKey);
      }
      assert CanonEach(qs) == qs;
    case ManifestObject(m) =>
      SortSpec(m.anchors, IdKey);
      SortSpec(m.closure, IdKey);
      SortOfSorted(Sort(m.anchors, IdKey), IdKey);
      SortOfSorted(Sort(m.closure, IdKey), IdKey);
    case _ =>
  }
}
