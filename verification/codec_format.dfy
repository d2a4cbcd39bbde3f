/** The encoding byte by byte: every kind as a concatenation of its fields in order, with the
    literal marks and widths. */
module CodecFormat {
  import opened Octets
  import opened Objects
  import opened Codec
  import opened Sorting

  // ---- fields ------------------------------------------------------------------

  /** Four bytes, the most significant first. */
  function Word(n: nat): Bytes { [n / 16_777_216 % 256, n / 65_536 % 256, n / 256 % 256, n % 256] }

  /** Eight bytes of the two's complement form, the most significant first. */
  function Long(t: int): Bytes {
    var v := t % 0x1_0000_0000_0000_0000;
    Word(v / 0x1_0000_0000) + Word(v % 0x1_0000_0000)
  }

  function Sized(b: Bytes): Bytes { Word(|b|) + b }

  function Joined<T>(xs: seq<T>, f: T -> Bytes): Bytes {
    if xs == [] then [] else f(xs[0]) + Joined(xs[1..], f)
  }

  function Counted<T>(xs: seq<T>, f: T -> Bytes): Bytes { Word(|xs|) + Joined(xs, f) }

  function EntryBytes(e: TreeEntry): Bytes {
    Sized(e.name) + [if e.kind == FileEntry then 0 else 1] + e.id + Word(e.mode) + [e.perms]
  }
  function WrapBytes(w: WrappedKey): Bytes { Sized(w.recipientId) + Sized(w.wrappedDek) }
  function RegisterBytes(r: RecipientEntry): Bytes {
    r.key + Word(r.epoch) + [if r.state == Granted then 0 else 1]
  }
  function RuleBytes(p: ProtectPrefix): Bytes { Sized(p.prefix) + Counted(p.recipients, RegisterBytes) }
  function RefBytes(r: SecretRef): Bytes { Sized(r.name) + r.id }
  function WrapSetBytes(w: WrapSet): Bytes { w.id + Counted(w.keys, WrapBytes) }
  function IdBytes(id: Id): Bytes { id }

  // ---- objects -------------------------------------------------------------------

  function SnapshotBytes(s: Snapshot): Bytes {
    s.root + Counted(s.parents, IdBytes) + Sized(s.author) + Long(s.timestamp) + Sized(s.message)
    + Counted(s.secrets, RefBytes) + Counted(s.prefixes, RuleBytes) + Counted(s.wrapped, WrapSetBytes)
  }

  function ManifestBytes(m: Manifest): Bytes {
    m.base + (if m.prev.Some? then [1] + m.prev.value else [0]) + Counted(m.anchors, IdBytes)
    + Counted(m.closure, IdBytes) + Sized(m.indexCt) + Counted(m.kekWraps, WrapBytes)
  }

  /** The bytes of an object with its fields in the order they are held. */
  function Written(o: Object): Bytes {
    match o
    case Blob(b) => [0] + b
    case Tree(es) => [1] + Counted(es, EntryBytes)
    case SecretObject(s) => [3] + Sized(s.name) + Sized(s.nonce) + Sized(s.ciphertext) + Counted(s.keys, WrapBytes)
    case SnapshotObject(s) => [4] + SnapshotBytes(s)
    case Signature(id, signer, sig) => [5] + id + signer + sig
    case TranscriptObject(t) =>
      [6] + t.snapshot + Sized(t.agent) + Sized(t.session) + Sized(t.nonce) + Sized(t.ciphertext)
      + Counted(t.keys, WrapBytes)
    case Sealed(b) => [7] + b
    case ManifestObject(m) => [8] + ManifestBytes(m)
  }

  // ---- the printers write them ------------------------------------------------------

  lemma Quotients(n: nat)
    ensures n / 256 / 256 == n / 65_536 && n / 256 / 256 / 256 == n / 16_777_216
    ensures n / 256 / 256 / 256 / 256 == n / 0x1_0000_0000
  {
  }

  lemma {:induction false} FourDigits(n: nat)
    ensures BigEndian(4, n) == Word(n)
  {
    var a, b, c := n / 256, n / 256 / 256, n / 256 / 256 / 256;
    Quotients(n);
    assert BigEndian(0, c / 256) == [] && BigEndian(1, c) == [c % 256];
    assert BigEndian(2, b) == [c % 256, b % 256];
    assert BigEndian(3, a) == [c % 256, b % 256, a % 256];
  }

  lemma LowDigits(n: nat)
    ensures var m := n % 0x1_0000_0000;
      && m / 16_777_216 % 256 == n / 16_777_216 % 256 && m / 65_536 % 256 == n / 65_536 % 256
      && m / 256 % 256 == n / 256 % 256 && m % 256 == n % 256
  {
    var q, m := n / 0x1_0000_0000, n % 0x1_0000_0000;
    assert n == 0x1_0000_0000 * q + m;
    assert n / 16_777_216 == 256 * q + m / 16_777_216;
    assert n / 65_536 == 256 * (256 * q) + m / 65_536;
    assert n / 256 == 256 * (65_536 * q) + m / 256;
    assert n == 256 * (16_777_216 * q) + m;
    LowByte(q, m / 16_777_216);
    LowByte(256 * q, m / 65_536);
    LowByte(65_536 * q, m / 256);
    LowByte(16_777_216 * q, m);
  }

  lemma LowByte(q: nat, m: nat)
    ensures (256 * q + m) % 256 == m % 256
  {
  }

  lemma {:induction false} HighAndLow(n: nat)
    ensures BigEndian(8, n) == BigEndian(4, n / 0x1_0000_0000) + Word(n % 0x1_0000_0000)
  {
    var a, b, c := n / 256, n / 256 / 256, n / 256 / 256 / 256;
    var high := BigEndian(4, c / 256);
    Quotients(n);
    LowDigits(n);
    assert BigEndian(5, c) == high + [c % 256];
    assert BigEndian(6, b) == high + [c % 256, b % 256];
    assert BigEndian(7, a) == high + [c % 256, b % 256, a % 256];
    assert BigEndian(8, n) == high + [c % 256, b % 256, a % 256, n % 256];
  }

  lemma {:induction false} EightDigits(t: int)
    requires -I63 <= t < I63
    ensures BigEndian(8, if t < 0 then t + U64 else t) == Long(t)
  {
    var v := if t < 0 then t + U64 else t;
    assert t % 0x1_0000_0000_0000_0000 == v;
    HighAndLow(v);
    FourDigits(v / 0x1_0000_0000);
  }

  lemma U32Writes(n: nat, tail: Bytes)
    ensures PutU32(n, tail) == Word(n) + tail
  {
    FourDigits(n);
  }

  lemma SizedWrites(b: Bytes, tail: Bytes)
    ensures PutBytes(b, tail) == Sized(b) + tail
  {
    U32Writes(|b|, b + tail);
    assert Word(|b|) + (b + tail) == Word(|b|) + b + tail;
  }

  /** `put` prints what `f` gives. */
  ghost predicate Writes<T(!new)>(put: (T, Bytes) -> Bytes, f: T -> Bytes) {
    forall x, tail :: put(x, tail) == f(x) + tail
  }

  lemma {:induction false} ListWrites<T(!new)>(xs: seq<T>, put: (T, Bytes) -> Bytes, f: T -> Bytes, tail: Bytes)
    requires Writes(put, f)
    ensures PutList(xs, put, tail) == Joined(xs, f) + tail
  {
    if xs != [] {
      ListWrites(xs[1..], put, f, tail);
      assert f(xs[0]) + (Joined(xs[1..], f) + tail) == f(xs[0]) + Joined(xs[1..], f) + tail;
    }
  }

  lemma CountedWrites<T(!new)>(xs: seq<T>, put: (T, Bytes) -> Bytes, f: T -> Bytes, tail: Bytes)
    requires Writes(put, f)
    ensures PutCounted(xs, put, tail) == Counted(xs, f) + tail
  {
    ListWrites(xs, put, f, tail);
    U32Writes(|xs|, Joined(xs, f) + tail);
    assert Word(|xs|) + (Joined(xs, f) + tail) == Word(|xs|) + Joined(xs, f) + tail;
  }

  lemma ElementsWrite()
    ensures Writes(PutId, IdBytes) && Writes(PutWrap, WrapBytes) && Writes(PutEntry, EntryBytes)
    ensures Writes(PutRegister, RegisterBytes) && Writes(PutSecretRef, RefBytes)
  {
    forall w, tail: Bytes ensures PutWrap(w, tail) == WrapBytes(w) + tail {
      SizedWrites(w.wrappedDek, tail);
      SizedWrites(w.recipientId, Sized(w.wrappedDek) + tail);
    }
    forall e, tail: Bytes ensures PutEntry(e, tail) == EntryBytes(e) + tail {
      U32Writes(e.mode, [e.perms] + tail);
      SizedWrites(e.name, [KindByte(e.kind)] + (e.id + (Word(e.mode) + ([e.perms] + tail))));
    }
    forall r, tail: Bytes ensures PutRegister(r, tail) == RegisterBytes(r) + tail {
      U32Writes(r.epoch, [StateByte(r.state)] + tail);
    }
    forall r, tail: Bytes ensures PutSecretRef(r, tail) == RefBytes(r) + tail { SizedWrites(r.name, r.id + tail); }
  }

  lemma GroupsWrite()
    ensures Writes(PutPrefix, RuleBytes) && Writes(PutWrapSet, WrapSetBytes)
  {
    ElementsWrite();
    forall p, tail: Bytes ensures PutPrefix(p, tail) == RuleBytes(p) + tail {
      CountedWrites(p.recipients, PutRegister, RegisterBytes, tail);
      SizedWrites(p.prefix, Counted(p.recipients, RegisterBytes) + tail);
    }
    forall w, tail: Bytes ensures PutWrapSet(w, tail) == WrapSetBytes(w) + tail {
      CountedWrites(w.keys, PutWrap, WrapBytes, tail);
    }
  }

  lemma {:induction false} SnapshotWrites(s: Snapshot)
    requires SnapshotTyped(s)
    ensures PutSnapshot(s, []) == SnapshotBytes(s)
  {
    ElementsWrite();
    GroupsWrite();
    var t7 := Counted(s.wrapped, WrapSetBytes);
    var t6 := Counted(s.prefixes, RuleBytes) + t7;
    var t5 := Counted(s.secrets, RefBytes) + t6;
    var t4 := Sized(s.message) + t5;
    var t3 := Long(s.timestamp) + t4;
    var t2 := Sized(s.author) + t3;
    CountedWrites(s.wrapped, PutWrapSet, WrapSetBytes, []);
    assert t7 + [] == t7;
    CountedWrites(s.prefixes, PutPrefix, RuleBytes, t7);
    CountedWrites(s.secrets, PutSecretRef, RefBytes, t6);
    SizedWrites(s.message, t5);
    EightDigits(s.timestamp);
    SizedWrites(s.author, t3);
    CountedWrites(s.parents, PutId, IdBytes, t2);
    var p2 := s.root + Counted(s.parents, IdBytes);
    var p4 := p2 + Sized(s.author) + Long(s.timestamp);
    var p6 := p4 + Sized(s.message) + Counted(s.secrets, RefBytes);
    Associative(s.root, Counted(s.parents, IdBytes), t2);
    Associative(p2, Sized(s.author), t3);
    Associative(p2 + Sized(s.author), Long(s.timestamp), t4);
    Associative(p4, Sized(s.message), t5);
    Associative(p4 + Sized(s.message), Counted(s.secrets, RefBytes), t6);
    Associative(p6, Counted(s.prefixes, RuleBytes), t7);
  }

  lemma {:induction false} ManifestWrites(m: Manifest)
    ensures PutManifest(m, []) == ManifestBytes(m)
  {
    ElementsWrite();
    var wraps := Counted(m.kekWraps, WrapBytes);
    var t4 := Sized(m.indexCt) + wraps;
    var t3 := Counted(m.closure, IdBytes) + t4;
    var t2 := Counted(m.anchors, IdBytes) + t3;
    CountedWrites(m.kekWraps, PutWrap, WrapBytes, []);
    assert wraps + [] == wraps;
    SizedWrites(m.indexCt, wraps);
    CountedWrites(m.closure, PutId, IdBytes, t4);
    CountedWrites(m.anchors, PutId, IdBytes, t3);
    var mark := if m.prev.Some? then [1] + m.prev.value else [0];
    assert PutOption(m.prev, t2) == mark + t2;
    var p3 := m.base + mark + Counted(m.anchors, IdBytes);
    Associative(m.base, mark, t2);
    Associative(m.base + mark, Counted(m.anchors, IdBytes), t3);
    Associative(p3, Counted(m.closure, IdBytes), t4);
    Associative(p3 + Counted(m.closure, IdBytes), Sized(m.indexCt), wraps);
  }

  lemma {:induction false} SecretWrites(s: Secret)
    ensures [3] + PutSecret(s, []) == Written(SecretObject(s))
  {
    ElementsWrite();
    var wraps := Counted(s.keys, WrapBytes);
    CountedWrites(s.keys, PutWrap, WrapBytes, []);
    assert wraps + [] == wraps;
    SizedWrites(s.ciphertext, wraps);
    SizedWrites(s.nonce, Sized(s.ciphertext) + wraps);
    SizedWrites(s.name, Sized(s.nonce) + (Sized(s.ciphertext) + wraps));
    var p1 := [3] + Sized(s.name);
    Associative([3], Sized(s.name), Sized(s.nonce) + (Sized(s.ciphertext) + wraps));
    Associative(p1, Sized(s.nonce), Sized(s.ciphertext) + wraps);
    Associative(p1 + Sized(s.nonce), Sized(s.ciphertext), wraps);
  }

  lemma {:induction false} TranscriptWrites(t: Transcript)
    ensures [6] + PutTranscript(t, []) == Written(TranscriptObject(t))
  {
    ElementsWrite();
    var wraps := Counted(t.keys, WrapBytes);
    var t4 := Sized(t.ciphertext) + wraps;
    var t3 := Sized(t.nonce) + t4;
    var t2 := Sized(t.session) + t3;
    CountedWrites(t.keys, PutWrap, WrapBytes, []);
    assert wraps + [] == wraps;
    SizedWrites(t.ciphertext, wraps);
    SizedWrites(t.nonce, t4);
    SizedWrites(t.session, t3);
    SizedWrites(t.agent, t2);
    var p2 := [6] + t.snapshot + Sized(t.agent);
    var p4 := p2 + Sized(t.session) + Sized(t.nonce);
    Associative([6], t.snapshot, Sized(t.agent) + t2);
    Associative([6] + t.snapshot, Sized(t.agent), t2);
    Associative(p2, Sized(t.session), t3);
    Associative(p2 + Sized(t.session), Sized(t.nonce), t4);
    Associative(p4, Sized(t.ciphertext), wraps);
  }

  /** What is printed, for every object of every kind. */
  lemma PrintIsWritten(o: Object)
    requires Typed(o)
    ensures Print(o) == Written(o)
  {
    match o
    case Blob(_) =>
    case Sealed(_) =>
    case Tree(es) =>
      ElementsWrite();
      CountedWrites(es, PutEntry, EntryBytes, []);
      assert Counted(es, EntryBytes) + [] == Counted(es, EntryBytes);
    case SecretObject(s) => SecretWrites(s);
    case SnapshotObject(s) => SnapshotWrites(s);
    case Signature(id, signer, sig) =>
      Associative([5], id, signer + sig);
      Associative([5] + id, signer, sig);
    case TranscriptObject(t) => TranscriptWrites(t);
    case ManifestObject(m) => ManifestWrites(m);
  }

  /** So the canonical encoding is the canonical form written out. */
  lemma EncodeIsWritten(o: Object)
    requires Typed(o)
    ensures Encode(o) == Written(Canon(o))
  {
    CanonKeepsTyped(o);
    PrintIsWritten(Canon(o));
  }
}
