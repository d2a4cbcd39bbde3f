/** The canonical encoding as a printer and a parser on byte strings, and their laws.
    A printer takes the bytes that will follow what it prints; a parser returns the bytes
    it has not read, so `get(put(x, tail)) == Parsed(x, tail)` is the law of every field. */
module Codec {
  import opened Octets
  import opened Sorting
  import opened Objects

  // ---- fields ----------------------------------------------------------------

  function PutU32(n: nat, tail: Bytes): Bytes { BigEndian(4, n) + tail }

  function PutI64(t: int, tail: Bytes): Bytes
    requires -I63 <= t < I63
  {
    BigEndian(8, if t < 0 then t + U64 else t) + tail
  }

  function PutBytes(b: Bytes, tail: Bytes): Bytes { PutU32(|b|, b + tail) }

  function GetTake(n: nat, s: Bytes): Parsed<Bytes> {
    if |s| < n then Malformed else Parsed(s[..n], s[n..])
  }

  function GetByte(s: Bytes): Parsed<byte> {
    if s == [] then Malformed else Parsed(s[0], s[1..])
  }

  function GetU32(s: Bytes): Parsed<nat> {
    var (b, s1) :- GetTake(4, s);
    Parsed(FromBigEndian(b), s1)
  }

  function GetI64(s: Bytes): Parsed<int> {
    var (b, s1) :- GetTake(8, s);
    var v := FromBigEndian(b);
    Parsed(if v >= I63 then v - U64 else v, s1)
  }

  function GetId(s: Bytes): Parsed<Id> { GetTake(32, s) }

  function GetBytes(s: Bytes): Parsed<Bytes> {
    var (n, s1) :- GetU32(s);
    GetTake(n, s1)
  }

  function GetText(s: Bytes): Parsed<Bytes> {
    var (b, s1) :- GetBytes(s);
    if ValidUtf8(b) then Parsed(b, s1) else Malformed
  }

  /** An element count, refused when it exceeds the bytes left. */
  function GetCount(s: Bytes): Parsed<nat> {
    var (n, s1) :- GetU32(s);
    if n > |s1| then Malformed else Parsed(n, s1)
  }

  lemma TakeLaw(b: Bytes, tail: Bytes)
    ensures GetTake(|b|, b + tail) == Parsed(b, tail)
  {
    assert (b + tail)[..|b|] == b && (b + tail)[|b|..] == tail;
  }

  lemma U32Law(n: nat, tail: Bytes)
    requires n < U32
    ensures GetU32(PutU32(n, tail)) == Parsed(n, tail)
  {
    Pow256Values();
    BigEndianRoundTrip(4, n);
    TakeLaw(BigEndian(4, n), tail);
  }

  lemma I64Law(t: int, tail: Bytes)
    requires -I63 <= t < I63
    ensures GetI64(PutI64(t, tail)) == Parsed(t, tail)
  {
    var v := if t < 0 then t + U64 else t;
    Pow256Values();
    BigEndianRoundTrip(8, v);
    TakeLaw(BigEndian(8, v), tail);
  }

  lemma {:induction false} BytesLaw(b: Bytes, tail: Bytes)
    requires Short(b)
    ensures GetBytes(PutBytes(b, tail)) == Parsed(b, tail)
    ensures ValidUtf8(b) ==> GetText(PutBytes(b, tail)) == Parsed(b, tail)
  {
    U32Law(|b|, b + tail);
    TakeLaw(b, tail);
  }

  // ---- counted lists ---------------------------------------------------------

  function PutList<T>(xs: seq<T>, put: (T, Bytes) -> Bytes, tail: Bytes): Bytes {
    if xs == [] then tail else put(xs[0], PutList(xs[1..], put, tail))
  }

  function PutCounted<T>(xs: seq<T>, put: (T, Bytes) -> Bytes, tail: Bytes): Bytes {
    PutU32(|xs|, PutList(xs, put, tail))
  }

  function GetList<T>(n: nat, get: Bytes -> Parsed<T>, s: Bytes): Parsed<seq<T>> {
    if n == 0 then Parsed([], s)
    else
      var (x, s1) :- get(s);
      var (xs, s2) :- GetList(n - 1, get, s1);
      Parsed([x] + xs, s2)
  }

  function GetCounted<T>(get: Bytes -> Parsed<T>, s: Bytes): Parsed<seq<T>> {
    var (n, s1) :- GetCount(s);
    GetList(n, get, s1)
  }

  /** `get` inverts `put` at `x`, and `x` takes at least one byte. */
  ghost predicate Law<T(!new)>(put: (T, Bytes) -> Bytes, get: Bytes -> Parsed<T>, x: T) {
    forall tail :: get(put(x, tail)) == Parsed(x, tail) && |put(x, tail)| > |tail|
  }

  lemma {:induction false} ListLaw<T(!new)>(xs: seq<T>, put: (T, Bytes) -> Bytes, get: Bytes -> Parsed<T>, tail: Bytes)
    requires forall i :: 0 <= i < |xs| ==> Law(put, get, xs[i])
    ensures GetList(|xs|, get, PutList(xs, put, tail)) == Parsed(xs, tail)
    ensures |PutList(xs, put, tail)| >= |xs| + |tail|
  {
    if xs != [] {
      ListLaw(xs[1..], put, get, tail);
      assert Law(put, get, xs[0]);
      assert xs == [xs[0]] + xs[1..];
    }
  }

  lemma CountedLaw<T(!new)>(xs: seq<T>, put: (T, Bytes) -> Bytes, get: Bytes -> Parsed<T>, tail: Bytes)
    requires |xs| < U32
    requires forall i :: 0 <= i < |xs| ==> Law(put, get, xs[i])
    ensures GetCounted(get, PutCounted(xs, put, tail)) == Parsed(xs, tail)
  {
    ListLaw(xs, put, get, tail);
    U32Law(|xs|, PutList(xs, put, tail));
  }

  // ---- list elements ---------------------------------------------------------

  function PutId(id: Id, tail: Bytes): Bytes { id + tail }

  function PutWrap(w: WrappedKey, tail: Bytes): Bytes {
    PutBytes(w.recipientId, PutBytes(w.wrappedDek, tail))
  }
  function GetWrap(s: Bytes): Parsed<WrappedKey> {
    var (r, s1) :- GetText(s);
    var (d, s2) :- GetBytes(s1);
    Parsed(WrappedKey(r, d), s2)
  }

  function KindByte(k: EntryKind): byte { if k == FileEntry then 0 else 1 }
  function PutEntry(e: TreeEntry, tail: Bytes): Bytes {
    PutBytes(e.name, [KindByte(e.kind)] + PutId(e.id, PutU32(e.mode, [e.perms] + tail)))
  }
  function GetEntry(s: Bytes): Parsed<TreeEntry> {
    var (name, s1) :- GetText(s);
    var (k, s2) :- GetByte(s1);
    if k > 1 then Malformed else
    var (id, s3) :- GetId(s2);
    var (mode, s4) :- GetU32(s3);
    var (perms, s5) :- GetByte(s4);
    Parsed(TreeEntry(name, if k == 0 then FileEntry else DirEntry, id, mode, perms), s5)
  }

  function StateByte(s: RecipientState): byte { if s == Granted then 0 else 1 }
  function PutRegister(r: RecipientEntry, tail: Bytes): Bytes {
    r.key + PutU32(r.epoch, [StateByte(r.state)] + tail)
  }
  function GetRegister(s: Bytes): Parsed<RecipientEntry> {
    var (key, s1) :- GetTake(32, s);
    var (epoch, s2) :- GetU32(s1);
    var (st, s3) :- GetByte(s2);
    if st > 1 then Malformed else
    Parsed(RecipientEntry(key, epoch, if st == 0 then Granted else Revoked), s3)
  }

  function PutPrefix(p: ProtectPrefix, tail: Bytes): Bytes {
    PutBytes(p.prefix, PutCounted(p.recipients, PutRegister, tail))
  }
  function GetPrefix(s: Bytes): Parsed<ProtectPrefix> {
    var (prefix, s1) :- GetText(s);
    var (rs, s2) :- GetCounted(GetRegister, s1);
    Parsed(ProtectPrefix(prefix, rs), s2)
  }

  function PutSecretRef(r: SecretRef, tail: Bytes): Bytes { PutBytes(r.name, PutId(r.id, tail)) }
  function GetSecretRef(s: Bytes): Parsed<SecretRef> {
    var (name, s1) :- GetText(s);
    var (id, s2) :- GetId(s1);
    Parsed(SecretRef(name, id), s2)
  }

  function PutWrapSet(w: WrapSet, tail: Bytes): Bytes { PutId(w.id, PutCounted(w.keys, PutWrap, tail)) }
  function GetWrapSet(s: Bytes): Parsed<WrapSet> {
    var (id, s1) :- GetId(s);
    var (keys, s2) :- GetCounted(GetWrap, s1);
    Parsed(WrapSet(id, keys), s2)
  }

  lemma ByteLaw(b: byte, tail: Bytes)
    ensures GetByte([b] + tail) == Parsed(b, tail)
  {
    assert ([b] + tail)[1..] == tail;
  }

  lemma IdLaw(id: Id)
    requires IsId(id)
    ensures Law(PutId, GetId, id)
  {
    forall tail: Bytes ensures GetId(PutId(id, tail)) == Parsed(id, tail) { TakeLaw(id, tail); }
  }

  lemma WrapLaw(w: WrappedKey)
    requires WrapTyped(w)
    ensures Law(PutWrap, GetWrap, w)
  {
    forall tail: Bytes ensures GetWrap(PutWrap(w, tail)) == Parsed(w, tail) {
      BytesLaw(w.recipientId, PutBytes(w.wrappedDek, tail));
      BytesLaw(w.wrappedDek, tail);
    }
  }

  lemma EntryLaw(e: TreeEntry)
    requires EntryTyped(e)
    ensures Law(PutEntry, GetEntry, e)
  {
    forall tail: Bytes ensures GetEntry(PutEntry(e, tail)) == Parsed(e, tail) {
      var t4 := [e.perms] + tail;
      var t3 := PutU32(e.mode, t4);
      var t2 := PutId(e.id, t3);
      var t1 := [KindByte(e.kind)] + t2;
      BytesLaw(e.name, t1);
      ByteLaw(KindByte(e.kind), t2);
      TakeLaw(e.id, t3);
      U32Law(e.mode, t4);
      ByteLaw(e.perms, tail);
    }
  }

  lemma RegisterLaw(r: RecipientEntry)
    requires RegisterTyped(r)
    ensures Law(PutRegister, GetRegister, r)
  {
    forall tail: Bytes ensures GetRegister(PutRegister(r, tail)) == Parsed(r, tail) {
      var t2 := [StateByte(r.state)] + tail;
      TakeLaw(r.key, PutU32(r.epoch, t2));
      U32Law(r.epoch, t2);
      ByteLaw(StateByte(r.state), tail);
    }
  }

  lemma PrefixLaw(p: ProtectPrefix)
    requires PrefixTyped(p)
    ensures Law(PutPrefix, GetPrefix, p)
  {
    forall i | 0 <= i < |p.recipients| ensures Law(PutRegister, GetRegister, p.recipients[i]) {
      RegisterLaw(p.recipients[i]);
    }
    forall tail: Bytes
      ensures GetPrefix(PutPrefix(p, tail)) == Parsed(p, tail) && |PutPrefix(p, tail)| > |tail|
    {
      BytesLaw(p.prefix, PutCounted(p.recipients, PutRegister, tail));
      CountedLaw(p.recipients, PutRegister, GetRegister, tail);
      ListLaw(p.recipients, PutRegister, GetRegister, tail);
    }
  }

  lemma SecretRefLaw(r: SecretRef)
    requires SecretRefTyped(r)
    ensures Law(PutSecretRef, GetSecretRef, r)
  {
    forall tail: Bytes ensures GetSecretRef(PutSecretRef(r, tail)) == Parsed(r, tail) {
      BytesLaw(r.name, PutId(r.id, tail));
      TakeLaw(r.id, tail);
    }
  }

  lemma WrapsLaw(ws: seq<WrappedKey>, tail: Bytes)
    requires WrapsTyped(ws)
    ensures GetCounted(GetWrap, PutCounted(ws, PutWrap, tail)) == Parsed(ws, tail)
    ensures |PutCounted(ws, PutWrap, tail)| > |tail|
  {
    forall i | 0 <= i < |ws| ensures Law(PutWrap, GetWrap, ws[i]) { WrapLaw(ws[i]); }
    CountedLaw(ws, PutWrap, GetWrap, tail);
    ListLaw(ws, PutWrap, GetWrap, tail);
  }

  lemma WrapSetLaw(w: WrapSet)
    requires WrapSetTyped(w)
    ensures Law(PutWrapSet, GetWrapSet, w)
  {
    forall tail: Bytes
      ensures GetWrapSet(PutWrapSet(w, tail)) == Parsed(w, tail) && |PutWrapSet(w, tail)| > |tail|
    {
      TakeLaw(w.id, PutCounted(w.keys, PutWrap, tail));
      WrapsLaw(w.keys, tail);
    }
  }

  lemma IdsLaw(ids: seq<Id>, tail: Bytes)
    requires IdsTyped(ids)
    ensures GetCounted(GetId, PutCounted(ids, PutId, tail)) == Parsed(ids, tail)
  {
    forall i | 0 <= i < |ids| ensures Law(PutId, GetId, ids[i]) { IdLaw(ids[i]); }
    CountedLaw(ids, PutId, GetId, tail);
  }

  // ---- ordered maps ----------------------------------------------------------

  /** Insert into an ordered map: replaces the entry with the same key. */
  function Upsert<T>(m: seq<T>, x: T, key: T -> Bytes): seq<T> {
    if m == [] then [x]
    else if key(m[0]) == key(x) then [x] + m[1..]
    else if LexLe(key(x), key(m[0])) then [x] + m
    else [m[0]] + Upsert(m[1..], x, key)
  }

  /** The ordered map holding a list of entries inserted left to right. */
  function Collect<T>(xs: seq<T>, key: T -> Bytes): seq<T> {
    if xs == [] then [] else Upsert(Collect(xs[..|xs| - 1], key), xs[|xs| - 1], key)
  }

  lemma {:induction false} UpsertAtEnd<T>(m: seq<T>, x: T, key: T -> Bytes)
    requires Ascending(m + [x], key)
    ensures Upsert(m, x, key) == m + [x]
  {
    if m != [] {
      assert (m + [x])[0] == m[0] && (m + [x])[|m|] == x;
      if LexLe(key(x), key(m[0])) { LexAntisymmetric(key(x), key(m[0])); }
      assert forall i :: 0 <= i < |m| ==> (m[1..] + [x])[i] == (m + [x])[i + 1];
      UpsertAtEnd(m[1..], x, key);
      assert m == [m[0]] + m[1..];
    }
  }

  lemma {:induction false} CollectAscending<T>(xs: seq<T>, key: T -> Bytes)
    requires Ascending(xs, key)
    ensures Collect(xs, key) == xs
  {
    if xs != [] {
      var m := xs[..|xs| - 1];
      CollectAscending(m, key);
      assert xs == m + [xs[|xs| - 1]];
      UpsertAtEnd(m, xs[|xs| - 1], key);
    }
  }

  // ---- objects ---------------------------------------------------------------

  function PutSnapshot(s: Snapshot, tail: Bytes): Bytes
    requires SnapshotTyped(s)
  {
    PutId(s.root, PutCounted(s.parents, PutId,
      PutBytes(s.author, PutI64(s.timestamp, PutBytes(s.message,
        PutCounted(s.secrets, PutSecretRef, PutCounted(s.prefixes, PutPrefix,
          PutCounted(s.wrapped, PutWrapSet, tail))))))))
  }

  /** A snapshot with its two maps as the lists the bytes hold. */
  function GetFields(s: Bytes): Parsed<Snapshot> {
    var (root, s1) :- GetId(s);
    var (parents, s2) :- GetCounted(GetId, s1);
    var (author, s3) :- GetText(s2);
    var (timestamp, s4) :- GetI64(s3);
    var (message, s5) :- GetText(s4);
    var (secrets, s6) :- GetCounted(GetSecretRef, s5);
    var (prefixes, s7) :- GetCounted(GetPrefix, s6);
    var (wrapped, s8) :- GetCounted(GetWrapSet, s7);
    Parsed(Snapshot(root, parents, author, timestamp, message, secrets, prefixes, wrapped), s8)
  }

  function GetSnapshot(s: Bytes): Parsed<Snapshot> {
    var (f, rest) :- GetFields(s);
    Parsed(f.(secrets := Collect(f.secrets, SecretName), wrapped := Collect(f.wrapped, WrapSetId)), rest)
  }

  function PutSecret(s: Secret, tail: Bytes): Bytes {
    PutBytes(s.name, PutBytes(s.nonce, PutBytes(s.ciphertext, PutCounted(s.keys, PutWrap, tail))))
  }

  function GetSecret(s: Bytes): Parsed<Secret> {
    var (name, s1) :- GetText(s);
    var (nonce, s2) :- GetBytes(s1);
    var (ct, s3) :- GetBytes(s2);
    var (keys, s4) :- GetCounted(GetWrap, s3);
    Parsed(Secret(name, nonce, ct, keys), s4)
  }

  function PutTranscript(t: Transcript, tail: Bytes): Bytes {
    PutId(t.snapshot, PutBytes(t.agent, PutBytes(t.session,
      PutBytes(t.nonce, PutBytes(t.ciphertext, PutCounted(t.keys, PutWrap, tail))))))
  }

  function GetTranscript(s: Bytes): Parsed<Transcript> {
    var (snapshot, s1) :- GetId(s);
    var (agent, s2) :- GetText(s1);
    var (session, s3) :- GetText(s2);
    var (nonce, s4) :- GetBytes(s3);
    var (ct, s5) :- GetBytes(s4);
    var (keys, s6) :- GetCounted(GetWrap, s5);
    Parsed(Transcript(snapshot, agent, session, nonce, ct, keys), s6)
  }

  function PutOption(o: Option<Id>, tail: Bytes): Bytes {
    match o
    case None => [0] + tail
    case Some(id) => [1] + PutId(id, tail)
  }

  function GetOption(s: Bytes): Parsed<Option<Id>> {
    var (mark, s1) :- GetByte(s);
    if mark == 0 then Parsed(None, s1)
    else if mark == 1 then
      var (id, s2) :- GetId(s1);
      Parsed(Some(id), s2)
    else Malformed
  }

  function PutManifest(m: Manifest, tail: Bytes): Bytes {
    PutId(m.base, PutOption(m.prev, PutCounted(m.anchors, PutId, PutCounted(m.closure, PutId,
      PutBytes(m.indexCt, PutCounted(m.kekWraps, PutWrap, tail))))))
  }

  function GetManifest(s: Bytes): Parsed<Manifest> {
    var (base, s1) :- GetId(s);
    var (prev, s2) :- GetOption(s1);
    var (anchors, s3) :- GetCounted(GetId, s2);
    var (closure, s4) :- GetCounted(GetId, s3);
    var (indexCt, s5) :- GetBytes(s4);
    var (wraps, s6) :- GetCounted(GetWrap, s5);
    Parsed(Manifest(base, prev, anchors, closure, indexCt, wraps), s6)
  }

  function Tag(o: Object): byte {
    match o
    case Blob(_) => 0
    case Tree(_) => 1
    case SecretObject(_) => 3
    case SnapshotObject(_) => 4
    case Signature(_, _, _) => 5
    case TranscriptObject(_) => 6
    case Sealed(_) => 7
    case ManifestObject(_) => 8
  }

  function PrintBody(o: Object): Bytes
    requires Typed(o)
  {
    match o
    case Blob(c) => c
    case Tree(es) => PutCounted(es, PutEntry, [])
    case SecretObject(s) => PutSecret(s, [])
    case SnapshotObject(s) => PutSnapshot(s, [])
    case Signature(id, signer, sig) => id + (signer + sig)
    case TranscriptObject(t) => PutTranscript(t, [])
    case Sealed(p) => p
    case ManifestObject(m) => PutManifest(m, [])
  }

  /** The bytes of `o` with its fields in the order they are held. */
  function Print(o: Object): Bytes
    requires Typed(o)
  {
    [Tag(o)] + PrintBody(o)
  }

  /** The canonical encoding. */
  function Encode(o: Object): Bytes
    requires Typed(o)
  {
    CanonKeepsTyped(o);
    Print(Canon(o))
  }

  function DecodeBody(tag: byte, s: Bytes): Option<Object> {
    match tag
    case 0 => Some(Blob(s))
    case 1 => Drop(GetCounted(GetEntry, s), es => Tree(es))
    case 3 => Drop(GetSecret(s), x => SecretObject(x))
    case 4 => Drop(GetSnapshot(s), x => SnapshotObject(x))
    case 5 => if |s| == 128 then Some(Signature(s[..32], s[32..64], s[64..])) else None
    case 6 => Drop(GetTranscript(s), x => TranscriptObject(x))
    case 7 => Some(Sealed(s))
    case 8 => Drop(GetManifest(s), x => ManifestObject(x))
    case _ => None
  }

  /** Decode an object. Bytes after it are ignored, except after a signature. */
  function Decode(b: Bytes): Option<Object> {
    if b == [] then None else DecodeBody(b[0], b[1..])
  }

  function Drop<T>(p: Parsed<T>, wrap: T -> Object): Option<Object> {
    match p
    case Malformed => None
    case Parsed(x, _) => Some(wrap(x))
  }

  lemma FieldsLaw(s: Snapshot, tail: Bytes)
    requires SnapshotTyped(s)
    ensures GetFields(PutSnapshot(s, tail)) == Parsed(s, tail)
  {
    var t7 := PutCounted(s.wrapped, PutWrapSet, tail);
    var t6 := PutCounted(s.prefixes, PutPrefix, t7);
    var t5 := PutCounted(s.secrets, PutSecretRef, t6);
    var t4 := PutBytes(s.message, t5);
    var t3 := PutI64(s.timestamp, t4);
    var t2 := PutBytes(s.author, t3);
    var t1 := PutCounted(s.parents, PutId, t2);
    TakeLaw(s.root, t1);
    IdsLaw(s.parents, t2);
    BytesLaw(s.author, t3);
    I64Law(s.timestamp, t4);
    BytesLaw(s.message, t5);
    forall i | 0 <= i < |s.secrets| ensures Law(PutSecretRef, GetSecretRef, s.secrets[i]) {
      SecretRefLaw(s.secrets[i]);
    }
    CountedLaw(s.secrets, PutSecretRef, GetSecretRef, t6);
    forall i | 0 <= i < |s.prefixes| ensures Law(PutPrefix, GetPrefix, s.prefixes[i]) {
      PrefixLaw(s.prefixes[i]);
    }
    CountedLaw(s.prefixes, PutPrefix, GetPrefix, t7);
    forall i | 0 <= i < |s.wrapped| ensures Law(PutWrapSet, GetWrapSet, s.wrapped[i]) {
      WrapSetLaw(s.wrapped[i]);
    }
    CountedLaw(s.wrapped, PutWrapSet, GetWrapSet, tail);
  }

  lemma SnapshotLaw(s: Snapshot, tail: Bytes)
    requires SnapshotTyped(s)
    ensures GetSnapshot(PutSnapshot(s, tail)) == Parsed(s, tail)
  {
    FieldsLaw(s, tail);
    CollectAscending(s.secrets, SecretName);
    CollectAscending(s.wrapped, WrapSetId);
  }

  lemma SecretLaw(s: Secret, tail: Bytes)
    requires Typed(SecretObject(s))
    ensures GetSecret(PutSecret(s, tail)) == Parsed(s, tail)
  {
    var t3 := PutCounted(s.keys, PutWrap, tail);
    var t2 := PutBytes(s.ciphertext, t3);
    var t1 := PutBytes(s.nonce, t2);
    BytesLaw(s.name, t1);
    BytesLaw(s.nonce, t2);
    BytesLaw(s.ciphertext, t3);
    WrapsLaw(s.keys, tail);
  }

  lemma TranscriptLaw(t: Transcript, tail: Bytes)
    requires Typed(TranscriptObject(t))
    ensures GetTranscript(PutTranscript(t, tail)) == Parsed(t, tail)
  {
    var t5 := PutCounted(t.keys, PutWrap, tail);
    var t4 := PutBytes(t.ciphertext, t5);
    var t3 := PutBytes(t.nonce, t4);
    var t2 := PutBytes(t.session, t3);
    var t1 := PutBytes(t.agent, t2);
    TakeLaw(t.snapshot, t1);
    BytesLaw(t.agent, t2);
    BytesLaw(t.session, t3);
    BytesLaw(t.nonce, t4);
    BytesLaw(t.ciphertext, t5);
    WrapsLaw(t.keys, tail);
  }

  lemma OptionLaw(o: Option<Id>, tail: Bytes)
    requires o.Some? ==> IsId(o.value)
    ensures GetOption(PutOption(o, tail)) == Parsed(o, tail)
  {
    match o
    case None => ByteLaw(0, tail);
    case Some(id) =>
      ByteLaw(1, PutId(id, tail));
      TakeLaw(id, tail);
  }

  lemma ManifestLaw(m: Manifest, tail: Bytes)
    requires Typed(ManifestObject(m))
    ensures GetManifest(PutManifest(m, tail)) == Parsed(m, tail)
  {
    var t5 := PutCounted(m.kekWraps, PutWrap, tail);
    var t4 := PutBytes(m.indexCt, t5);
    var t3 := PutCounted(m.closure, PutId, t4);
    var t2 := PutCounted(m.anchors, PutId, t3);
    var t1 := PutOption(m.prev, t2);
    TakeLaw(m.base, t1);
    OptionLaw(m.prev, t2);
    IdsLaw(m.anchors, t3);
    IdsLaw(m.closure, t4);
    BytesLaw(m.indexCt, t5);
    WrapsLaw(m.kekWraps, tail);
  }

  lemma TreeLaw(es: seq<TreeEntry>, tail: Bytes)
    requires Typed(Tree(es))
    ensures GetCounted(GetEntry, PutCounted(es, PutEntry, tail)) == Parsed(es, tail)
  {
    forall i | 0 <= i < |es| ensures Law(PutEntry, GetEntry, es[i]) { EntryLaw(es[i]); }
    CountedLaw(es, PutEntry, GetEntry, tail);
  }

  lemma SignatureLaw(id: Id, signer: Bytes, sig: Bytes)
    requires Typed(Signature(id, signer, sig))
    ensures DecodeBody(5, id + (signer + sig)) == Some(Signature(id, signer, sig))
  {
    var s := id + (signer + sig);
    assert s[..32] == id && s[32..64] == signer && s[64..] == sig;
  }

  lemma TreeBody(es: seq<TreeEntry>)
    requires Typed(Tree(es))
    ensures DecodeBody(1, PutCounted(es, PutEntry, [])) == Some(Tree(es))
  {
    TreeLaw(es, []);
  }

  lemma SecretBody(s: Secret)
    requires Typed(SecretObject(s))
    ensures DecodeBody(3, PutSecret(s, [])) == Some(SecretObject(s))
  {
    SecretLaw(s, []);
  }

  lemma SnapshotBody(s: Snapshot)
    requires SnapshotTyped(s)
    ensures DecodeBody(4, PutSnapshot(s, [])) == Some(SnapshotObject(s))
  {
    SnapshotLaw(s, []);
  }

  lemma TranscriptBody(t: Transcript)
    requires Typed(TranscriptObject(t))
    ensures DecodeBody(6, PutTranscript(t, [])) == Some(TranscriptObject(t))
  {
    TranscriptLaw(t, []);
  }

  lemma ManifestBody(m: Manifest)
    requires Typed(ManifestObject(m))
    ensures DecodeBody(8, PutManifest(m, [])) == Some(ManifestObject(m))
  {
    ManifestLaw(m, []);
  }

  lemma BodyRoundTrip(o: Object)
    requires Typed(o)
    ensures DecodeBody(Tag(o), PrintBody(o)) == Some(o)
  {
    match o
    case Blob(_) =>
    case Sealed(_) =>
    case Tree(es) => TreeBody(es);
    case SecretObject(s) => SecretBody(s);
    case SnapshotObject(s) => SnapshotBody(s);
    case Signature(id, signer, sig) => SignatureLaw(id, signer, sig);
    case TranscriptObject(t) => TranscriptBody(t);
    case ManifestObject(m) => ManifestBody(m);
  }

  lemma PrintRoundTrip(o: Object)
    requires Typed(o)
    ensures Decode(Print(o)) == Some(o)
  {
    BodyRoundTrip(o);
    assert Print(o)[1..] == PrintBody(o);
  }

  /** Decoding an encoding gives the canonical form, which encodes to the same bytes. */
  lemma EncodeDecode(o: Object)
    requires Typed(o)
    ensures Decode(Encode(o)) == Some(Canon(o))
    ensures Typed(Canon(o)) && Encode(Canon(o)) == Encode(o) && BlobSize(Canon(o)) == BlobSize(o)
  {
    CanonKeepsTyped(o);
    CanonIdempotent(o);
    PrintRoundTrip(Canon(o));
  }

  /** Objects share an encoding exactly when their canonical forms are the same value. */
  lemma EncodeEqualIff(o: Object, q: Object)
    requires Typed(o) && Typed(q)
    ensures Encode(o) == Encode(q) <==> Canon(o) == Canon(q)
  {
    EncodeDecode(o);
    EncodeDecode(q);
  }
}
