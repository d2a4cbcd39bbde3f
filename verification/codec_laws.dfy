/** What the canonical encoding forgets, and what decoding arbitrary bytes can yield. */
module CodecLaws {
  import opened Octets
  import opened Sorting
  import opened Objects
  import opened Codec

  // ---- field order -------------------------------------------------------------

  lemma {:induction false} CanonInsert(p: ProtectPrefix, ps: seq<ProtectPrefix>)
    ensures CanonEach(Insert(p, ps, PrefixName)) == Insert(CanonPrefix(p), CanonEach(ps), PrefixName)
  {
    if ps != [] && !LexLe(p.prefix, ps[0].prefix) {
      CanonInsert(p, ps[1..]);
      assert CanonEach(ps)[1..] == CanonEach(ps[1..]);
      assert Insert(p, ps, PrefixName)[1..] == Insert(p, ps[1..], PrefixName);
    } else {
      assert ([p] + ps)[1..] == ps;
    }
  }

  lemma {:induction false} CanonSort(ps: seq<ProtectPrefix>)
    ensures CanonEach(Sort(ps, PrefixName)) == Sort(CanonEach(ps), PrefixName)
  {
    if ps != [] {
      CanonSort(ps[1..]);
      CanonInsert(ps[0], Sort(ps[1..], PrefixName));
      assert CanonEach(ps)[1..] == CanonEach(ps[1..]);
    }
  }

  /** Rearranging protected prefixes keeps the bytes exactly when, name by name, the same
      policies come in the same order. */
  lemma {:induction false} PrefixOrderExact(s: Snapshot, ps: seq<ProtectPrefix>)
    requires SnapshotTyped(s) && SnapshotTyped(s.(prefixes := ps))
    ensures Encode(SnapshotObject(s)) == Encode(SnapshotObject(s.(prefixes := ps)))
            <==> SameClasses(CanonEach(s.prefixes), CanonEach(ps), PrefixName)
  {
    EncodeEqualIff(SnapshotObject(s), SnapshotObject(s.(prefixes := ps)));
    CanonSort(s.prefixes);
    CanonSort(ps);
    SortEqualIff(CanonEach(s.prefixes), CanonEach(ps), PrefixName);
  }

  /** With one policy per name, any rearrangement of the prefixes keeps the bytes. */
  lemma PrefixOrderForgotten(s: Snapshot, ps: seq<ProtectPrefix>)
    requires SnapshotTyped(s) && SnapshotTyped(s.(prefixes := ps))
    requires multiset(s.prefixes) == multiset(ps) && KeysDetermine(s.prefixes, PrefixName)
    ensures Encode(SnapshotObject(s)) == Encode(SnapshotObject(s.(prefixes := ps)))
  {
    RearrangementSortsAlike(s.prefixes, ps, PrefixName);
  }

  /** Two different policies under one name: swapping them always changes the bytes. */
  lemma PrefixOrderMatters(s: Snapshot, p: ProtectPrefix, q: ProtectPrefix)
    requires SnapshotTyped(s.(prefixes := [p, q])) && SnapshotTyped(s.(prefixes := [q, p]))
    requires p.prefix == q.prefix && CanonPrefix(p) != CanonPrefix(q)
    ensures Encode(SnapshotObject(s.(prefixes := [p, q]))) != Encode(SnapshotObject(s.(prefixes := [q, p])))
  {
    FirstLeadsClass(CanonEach([p, q]), PrefixName);
    FirstLeadsClass(CanonEach([q, p]), PrefixName);
    PrefixOrderExact(s.(prefixes := [p, q]), [q, p]);
  }

  lemma {:induction false} FirstLeadsClass<T>(xs: seq<T>, key: T -> Bytes)
    requires xs != []
    ensures KeyClass(xs, key, key(xs[0])) != [] && KeyClass(xs, key, key(xs[0]))[0] == xs[0]
  {
  }

  /** Within a prefix, the order of the registers is never visible in the bytes. */
  lemma RegisterOrderForgotten(s: Snapshot, i: nat, rs: seq<RecipientEntry>)
    requires i < |s.prefixes| && RegistersDistinct(s.prefixes[i])
    requires multiset(s.prefixes[i].recipients) == multiset(rs)
    requires SnapshotTyped(s)
    requires SnapshotTyped(s.(prefixes := s.prefixes[i := s.prefixes[i].(recipients := rs)]))
    ensures Encode(SnapshotObject(s))
         == Encode(SnapshotObject(s.(prefixes := s.prefixes[i := s.prefixes[i].(recipients := rs)])))
  {
    var ps := s.prefixes[i := s.prefixes[i].(recipients := rs)];
    RearrangementSortsAlike(s.prefixes[i].recipients, rs, RegisterKey);
    assert CanonEach(s.prefixes) == CanonEach(ps);
    PrefixOrderExact(s, ps);
  }

  /** Manifests that agree elsewhere share bytes exactly when their anchors and closures
      are the same multisets. */
  lemma ManifestOrderExact(m: Manifest, anchors: seq<Id>, closure: seq<Id>)
    requires Typed(ManifestObject(m)) && Typed(ManifestObject(m.(anchors := anchors, closure := closure)))
    ensures Encode(ManifestObject(m)) == Encode(ManifestObject(m.(anchors := anchors, closure := closure)))
            <==> multiset(m.anchors) == multiset(anchors) && multiset(m.closure) == multiset(closure)
  {
    EncodeEqualIff(ManifestObject(m), ManifestObject(m.(anchors := anchors, closure := closure)));
    SortSpec(m.anchors, IdKey);
    SortSpec(anchors, IdKey);
    SortSpec(m.closure, IdKey);
    SortSpec(closure, IdKey);
    if multiset(m.anchors) == multiset(anchors) { RearrangementSortsAlike(m.anchors, anchors, IdKey); }
    if multiset(m.closure) == multiset(closure) { RearrangementSortsAlike(m.closure, closure, IdKey); }
  }

  /** Different kinds never share an encoding. */
  lemma KindsApart(o: Object, q: Object)
    requires Typed(o) && Typed(q) && Encode(o) == Encode(q)
    ensures Tag(o) == Tag(q)
  {
    assert Encode(o)[0] == Tag(o) && Encode(q)[0] == Tag(q);
  }

  // ---- arbitrary input -----------------------------------------------------------

  lemma U32Bound(s: Bytes)
    ensures GetU32(s).Parsed? ==> GetU32(s).value < U32
  {
    Pow256Values();
    if |s| >= 4 { BigEndianInverse(s[..4]); }
  }

  lemma FieldBounds(s: Bytes)
    ensures GetBytes(s).Parsed? ==> Short(GetBytes(s).value)
    ensures GetText(s).Parsed? ==> Text(GetText(s).value)
    ensures GetI64(s).Parsed? ==> -I63 <= GetI64(s).value < I63
  {
    U32Bound(s);
    Pow256Values();
    if |s| >= 8 { BigEndianInverse(s[..8]); }
  }

  ghost predicate Yields<T(!new)>(get: Bytes -> Parsed<T>, p: T -> bool) {
    forall s :: get(s).Parsed? ==> p(get(s).value)
  }

  lemma {:induction false} ListYields<T(!new)>(n: nat, get: Bytes -> Parsed<T>, s: Bytes, p: T -> bool)
    requires Yields(get, p)
    ensures GetList(n, get, s).Parsed? ==>
              |GetList(n, get, s).value| == n
              && forall i :: 0 <= i < n ==> p(GetList(n, get, s).value[i])
  {
    if n > 0 && get(s).Parsed? { ListYields(n - 1, get, get(s).rest, p); }
  }

  lemma CountedYields<T(!new)>(get: Bytes -> Parsed<T>, s: Bytes, p: T -> bool)
    requires Yields(get, p)
    ensures GetCounted(get, s).Parsed? ==>
              |GetCounted(get, s).value| < U32
              && forall i :: 0 <= i < |GetCounted(get, s).value| ==> p(GetCounted(get, s).value[i])
  {
    U32Bound(s);
    if GetCount(s).Parsed? { ListYields(GetCount(s).value, get, GetCount(s).rest, p); }
  }

  lemma WrapYields()
    ensures Yields(GetWrap, WrapTyped)
  {
    forall s | GetWrap(s).Parsed? ensures WrapTyped(GetWrap(s).value) {
      FieldBounds(s);
      FieldBounds(GetText(s).rest);
    }
  }

  lemma EntryYields()
    ensures Yields(GetEntry, EntryTyped)
  {
    forall s | GetEntry(s).Parsed? ensures EntryTyped(GetEntry(s).value) {
      FieldBounds(s);
      U32Bound(GetId(GetByte(GetText(s).rest).rest).rest);
    }
  }

  lemma RegisterYields()
    ensures Yields(GetRegister, RegisterTyped)
  {
    forall s | GetRegister(s).Parsed? ensures RegisterTyped(GetRegister(s).value) {
      U32Bound(GetTake(32, s).rest);
    }
  }

  lemma PrefixYields()
    ensures Yields(GetPrefix, PrefixTyped)
  {
    RegisterYields();
    forall s | GetPrefix(s).Parsed? ensures PrefixTyped(GetPrefix(s).value) {
      FieldBounds(s);
      CountedYields(GetRegister, GetText(s).rest, RegisterTyped);
    }
  }

  lemma SecretRefYields()
    ensures Yields(GetSecretRef, SecretRefTyped)
  {
    forall s | GetSecretRef(s).Parsed? ensures SecretRefTyped(GetSecretRef(s).value) { FieldBounds(s); }
  }

  lemma WrapSetYields()
    ensures Yields(GetWrapSet, WrapSetTyped)
  {
    WrapYields();
    forall s | GetWrapSet(s).Parsed? ensures WrapSetTyped(GetWrapSet(s).value) {
      CountedYields(GetWrap, GetId(s).rest, WrapTyped);
    }
  }

  lemma {:induction false} UpsertSpec<T>(m: seq<T>, x: T, key: T -> Bytes)
    requires Ascending(m, key)
    ensures Ascending(Upsert(m, x, key), key)
    ensures |Upsert(m, x, key)| <= |m| + 1
    ensures forall i :: 0 <= i < |Upsert(m, x, key)| ==> Upsert(m, x, key)[i] == x || Upsert(m, x, key)[i] in m
  {
    var r := Upsert(m, x, key);
    if m == [] {
    } else if key(m[0]) == key(x) {
    } else if LexLe(key(x), key(m[0])) {
      forall j | 0 < j < |r| ensures LexLt(key(x), key(r[j])) {
        if j > 1 {
          LexTransitive(key(x), key(m[0]), key(m[j - 1]));
          if key(x) == key(m[j - 1]) { LexAntisymmetric(key(x), key(m[0])); }
        }
      }
    } else {
      UpsertSpec(m[1..], x, key);
      LexTotal(key(x), key(m[0]));
      forall j | 0 < j < |r| ensures LexLt(key(m[0]), key(r[j])) {
        assert r[j] == Upsert(m[1..], x, key)[j - 1];
        assert r[j] == x || r[j] in m[1..];
      }
    }
  }

  lemma {:induction false} CollectSpec<T>(xs: seq<T>, key: T -> Bytes, p: T -> bool)
    requires forall i :: 0 <= i < |xs| ==> p(xs[i])
    ensures Ascending(Collect(xs, key), key)
    ensures |Collect(xs, key)| <= |xs|
    ensures forall i :: 0 <= i < |Collect(xs, key)| ==> p(Collect(xs, key)[i])
  {
    if xs != [] {
      var m := xs[..|xs| - 1];
      CollectSpec(m, key, p);
      UpsertSpec(Collect(m, key), xs[|xs| - 1], key);
    }
  }

  /** The last entry with that key. */
  function LastWith<T>(xs: seq<T>, key: T -> Bytes, k: Bytes): Option<T> {
    if xs == [] then None
    else if key(xs[|xs| - 1]) == k then Some(xs[|xs| - 1])
    else LastWith(xs[..|xs| - 1], key, k)
  }

  lemma {:induction false} UpsertIn<T(!new)>(m: seq<T>, x: T, key: T -> Bytes, y: T)
    requires Ascending(m, key)
    ensures y in Upsert(m, x, key) <==> y == x || (y in m && key(y) != key(x))
  {
    if m != [] {
      assert m == [m[0]] + m[1..];
      if key(m[0]) == key(x) {
        assert forall i :: 0 < i < |m| ==> LexLt(key(m[0]), key(m[i]));
      } else if LexLe(key(x), key(m[0])) {
        forall i | 0 <= i < |m| ensures key(m[i]) != key(x) {
          if i > 0 && key(m[i]) == key(x) { LexAntisymmetric(key(x), key(m[0])); }
        }
      } else {
        UpsertIn(m[1..], x, key, y);
      }
    }
  }

  /** A decoded map holds, for each key, the last entry the bytes give it, and nothing else. */
  lemma {:induction false} CollectIff<T(!new)>(xs: seq<T>, key: T -> Bytes, x: T)
    ensures Ascending(Collect(xs, key), key)
    ensures x in Collect(xs, key) <==> LastWith(xs, key, key(x)) == Some(x)
  {
    CollectSpec(xs, key, y => true);
    if xs != [] {
      var front, last := xs[..|xs| - 1], xs[|xs| - 1];
      CollectSpec(front, key, y => true);
      CollectIff(front, key, x);
      UpsertIn(Collect(front, key), last, key, x);
    }
  }

  /** So it is with the two maps of a snapshot. */
  lemma MapsTakeLast(s: Bytes, r: SecretRef, w: WrapSet)
    requires GetSnapshot(s).Parsed?
    ensures r in GetSnapshot(s).value.secrets <==> LastWith(GetFields(s).value.secrets, SecretName, r.name) == Some(r)
    ensures w in GetSnapshot(s).value.wrapped <==> LastWith(GetFields(s).value.wrapped, WrapSetId, w.id) == Some(w)
  {
    CollectIff(GetFields(s).value.secrets, SecretName, r);
    CollectIff(GetFields(s).value.wrapped, WrapSetId, w);
  }

  lemma SnapshotYields(s: Bytes)
    requires GetSnapshot(s).Parsed?
    ensures SnapshotTyped(GetSnapshot(s).value)
  {
    var s1 := GetId(s).rest;
    CountedYields(GetId, s1, IsId);
    var s2 := GetCounted(GetId, s1).rest;
    FieldBounds(s2);
    var s3 := GetText(s2).rest;
    FieldBounds(s3);
    var s4 := GetI64(s3).rest;
    FieldBounds(s4);
    var s5 := GetText(s4).rest;
    SecretRefYields();
    CountedYields(GetSecretRef, s5, SecretRefTyped);
    CollectSpec(GetCounted(GetSecretRef, s5).value, SecretName, SecretRefTyped);
    var s6 := GetCounted(GetSecretRef, s5).rest;
    PrefixYields();
    CountedYields(GetPrefix, s6, PrefixTyped);
    var s7 := GetCounted(GetPrefix, s6).rest;
    WrapSetYields();
    CountedYields(GetWrapSet, s7, WrapSetTyped);
    CollectSpec(GetCounted(GetWrapSet, s7).value, WrapSetId, WrapSetTyped);
  }

  lemma SecretYields(s: Bytes)
    requires GetSecret(s).Parsed?
    ensures Typed(SecretObject(GetSecret(s).value))
  {
    FieldBounds(s);
    var s1 := GetText(s).rest;
    FieldBounds(s1);
    var s2 := GetBytes(s1).rest;
    FieldBounds(s2);
    WrapYields();
    CountedYields(GetWrap, GetBytes(s2).rest, WrapTyped);
  }

  lemma TranscriptYields(s: Bytes)
    requires GetTranscript(s).Parsed?
    ensures Typed(TranscriptObject(GetTranscript(s).value))
  {
    var s1 := GetId(s).rest;
    FieldBounds(s1);
    var s2 := GetText(s1).rest;
    FieldBounds(s2);
    var s3 := GetText(s2).rest;
    FieldBounds(s3);
    var s4 := GetBytes(s3).rest;
    FieldBounds(s4);
    WrapYields();
    CountedYields(GetWrap, GetBytes(s4).rest, WrapTyped);
  }

  lemma ManifestYields(s: Bytes)
    requires GetManifest(s).Parsed?
    ensures Typed(ManifestObject(GetManifest(s).value))
  {
    var s2 := GetOption(GetId(s).rest).rest;
    CountedYields(GetId, s2, IsId);
    var s3 := GetCounted(GetId, s2).rest;
    CountedYields(GetId, s3, IsId);
    var s4 := GetCounted(GetId, s3).rest;
    FieldBounds(s4);
    WrapYields();
    CountedYields(GetWrap, GetBytes(s4).rest, WrapTyped);
  }

  /** Whatever bytes are given, an accepted object has the shape its types promise. */
  lemma DecodeYieldsTyped(b: Bytes)
    requires Decode(b).Some?
    ensures Typed(Decode(b).value)
  {
    var s := b[1..];
    match b[0]
    case 1 =>
      EntryYields();
      CountedYields(GetEntry, s, EntryTyped);
    case 3 => SecretYields(s);
    case 4 => SnapshotYields(s);
    case 6 => TranscriptYields(s);
    case 8 => ManifestYields(s);
    case _ =>
  }

  /** So decoding, encoding and decoding again is stable from the first decode on. */
  lemma DecodeStable(b: Bytes)
    requires Decode(b).Some?
    ensures Typed(Decode(b).value) && Decode(Encode(Decode(b).value)) == Some(Canon(Decode(b).value))
  {
    DecodeYieldsTyped(b);
    EncodeDecode(Decode(b).value);
  }
}
