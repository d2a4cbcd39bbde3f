/** Which bytes are the encoding of an object: the inverse of every field law, and the exact set. */
module CodecExact {
  import opened Octets
  import opened Sorting
  import opened Objects
  import opened Codec
  import opened CodecLaws
  import opened CodecOrders

  // ---- reading loses nothing ---------------------------------------------------

  /** What was read, written back before what was left, is what there was. */
  ghost predicate Back<T(!new)>(put: (T, Bytes) -> Bytes, get: Bytes -> Parsed<T>) {
    forall s :: get(s).Parsed? ==> put(get(s).value, get(s).rest) == s
  }

  lemma U32Back(s: Bytes)
    ensures GetU32(s).Parsed? ==> PutU32(GetU32(s).value, GetU32(s).rest) == s
  {
    if |s| >= 4 {
      BigEndianInverse(s[..4]);
      assert s[..4] + s[4..] == s;
    }
  }

  lemma I64Back(s: Bytes)
    ensures GetI64(s).Parsed? ==> -I63 <= GetI64(s).value < I63 && PutI64(GetI64(s).value, GetI64(s).rest) == s
  {
    FieldBounds(s);
    if |s| >= 8 {
      BigEndianInverse(s[..8]);
      Pow256Values();
      assert s[..8] + s[8..] == s;
    }
  }

  lemma TakeBack(n: nat, s: Bytes)
    ensures GetTake(n, s).Parsed? ==> GetTake(n, s).value + GetTake(n, s).rest == s
  {
  }

  lemma BytesBack(s: Bytes)
    ensures GetBytes(s).Parsed? ==> PutBytes(GetBytes(s).value, GetBytes(s).rest) == s
    ensures GetText(s).Parsed? ==> PutBytes(GetText(s).value, GetText(s).rest) == s
  {
    U32Back(s);
    if GetU32(s).Parsed? { TakeBack(GetU32(s).value, GetU32(s).rest); }
  }

  lemma {:induction false} ListBack<T(!new)>(n: nat, put: (T, Bytes) -> Bytes, get: Bytes -> Parsed<T>, s: Bytes)
    requires Back(put, get)
    ensures GetList(n, get, s).Parsed? ==>
              |GetList(n, get, s).value| == n && PutList(GetList(n, get, s).value, put, GetList(n, get, s).rest) == s
  {
    if n > 0 && get(s).Parsed? {
      ListBack(n - 1, put, get, get(s).rest);
      if GetList(n, get, s).Parsed? {
        assert GetList(n, get, s).value[1..] == GetList(n - 1, get, get(s).rest).value;
      }
    }
  }

  lemma CountedBack<T(!new)>(put: (T, Bytes) -> Bytes, get: Bytes -> Parsed<T>, s: Bytes)
    requires Back(put, get)
    ensures GetCounted(get, s).Parsed? ==> PutCounted(GetCounted(get, s).value, put, GetCounted(get, s).rest) == s
  {
    U32Back(s);
    if GetCount(s).Parsed? { ListBack(GetCount(s).value, put, get, GetCount(s).rest); }
  }

  lemma IdBack()
    ensures Back(PutId, GetId)
  {
    forall s | GetId(s).Parsed? ensures PutId(GetId(s).value, GetId(s).rest) == s { TakeBack(32, s); }
  }

  lemma WrapBack()
    ensures Back(PutWrap, GetWrap)
  {
    forall s | GetWrap(s).Parsed? ensures PutWrap(GetWrap(s).value, GetWrap(s).rest) == s {
      BytesBack(s);
      BytesBack(GetText(s).rest);
    }
  }

  lemma ByteBack(s: Bytes)
    ensures GetByte(s).Parsed? ==> [GetByte(s).value] + GetByte(s).rest == s
  {
  }

  lemma EntryBack()
    ensures Back(PutEntry, GetEntry)
  {
    forall s | GetEntry(s).Parsed? ensures PutEntry(GetEntry(s).value, GetEntry(s).rest) == s {
      var s1 := GetText(s).rest;
      var s2 := GetByte(s1).rest;
      BytesBack(s);
      ByteBack(s1);
      assert [KindByte(GetEntry(s).value.kind)] + s2 == s1;
      NumberedBack(s2);
    }
  }

  /** Thirty-two bytes, a number and a byte: the end of a tree entry, and a register. */
  lemma NumberedBack(s: Bytes)
    requires GetId(s).Parsed? && GetU32(GetId(s).rest).Parsed? && GetByte(GetU32(GetId(s).rest).rest).Parsed?
    ensures var t := GetU32(GetId(s).rest);
      PutId(GetId(s).value, PutU32(t.value, [GetByte(t.rest).value] + GetByte(t.rest).rest)) == s
  {
    TakeBack(32, s);
    U32Back(GetId(s).rest);
    ByteBack(GetU32(GetId(s).rest).rest);
  }

  lemma RegisterBack()
    ensures Back(PutRegister, GetRegister)
  {
    forall s | GetRegister(s).Parsed? ensures PutRegister(GetRegister(s).value, GetRegister(s).rest) == s {
      var t := GetU32(GetTake(32, s).rest);
      NumberedBack(s);
      assert [StateByte(GetRegister(s).value.state)] + GetRegister(s).rest
          == [GetByte(t.rest).value] + GetByte(t.rest).rest;
    }
  }

  lemma PrefixBack()
    ensures Back(PutPrefix, GetPrefix)
  {
    RegisterBack();
    forall s | GetPrefix(s).Parsed? ensures PutPrefix(GetPrefix(s).value, GetPrefix(s).rest) == s {
      BytesBack(s);
      CountedBack(PutRegister, GetRegister, GetText(s).rest);
    }
  }

  lemma SecretRefBack()
    ensures Back(PutSecretRef, GetSecretRef)
  {
    forall s | GetSecretRef(s).Parsed? ensures PutSecretRef(GetSecretRef(s).value, GetSecretRef(s).rest) == s {
      BytesBack(s);
      TakeBack(32, GetText(s).rest);
    }
  }

  lemma WrapSetBack()
    ensures Back(PutWrapSet, GetWrapSet)
  {
    WrapBack();
    forall s | GetWrapSet(s).Parsed? ensures PutWrapSet(GetWrapSet(s).value, GetWrapSet(s).rest) == s {
      TakeBack(32, s);
      CountedBack(PutWrap, GetWrap, GetId(s).rest);
    }
  }

  lemma SecretBack(s: Bytes)
    requires GetSecret(s).Parsed?
    ensures PutSecret(GetSecret(s).value, GetSecret(s).rest) == s
  {
    var s1 := GetText(s).rest;
    var s2 := GetBytes(s1).rest;
    BytesBack(s);
    BytesBack(s1);
    BytesBack(s2);
    WrapBack();
    CountedBack(PutWrap, GetWrap, GetBytes(s2).rest);
  }

  lemma TranscriptBack(s: Bytes)
    requires GetTranscript(s).Parsed?
    ensures PutTranscript(GetTranscript(s).value, GetTranscript(s).rest) == s
  {
    var s1 := GetId(s).rest;
    var s2 := GetText(s1).rest;
    var s3 := GetText(s2).rest;
    var s4 := GetBytes(s3).rest;
    TakeBack(32, s);
    BytesBack(s1);
    BytesBack(s2);
    BytesBack(s3);
    BytesBack(s4);
    WrapBack();
    CountedBack(PutWrap, GetWrap, GetBytes(s4).rest);
  }

  lemma OptionBack(s: Bytes)
    ensures GetOption(s).Parsed? ==> PutOption(GetOption(s).value, GetOption(s).rest) == s
  {
    ByteBack(s);
    if GetByte(s).Parsed? { TakeBack(32, GetByte(s).rest); }
  }

  lemma ManifestBack(s: Bytes)
    requires GetManifest(s).Parsed?
    ensures PutManifest(GetManifest(s).value, GetManifest(s).rest) == s
  {
    var s1 := GetId(s).rest;
    var s2 := GetOption(s1).rest;
    var s3 := GetCounted(GetId, s2).rest;
    var s4 := GetCounted(GetId, s3).rest;
    TakeBack(32, s);
    OptionBack(s1);
    IdBack();
    CountedBack(PutId, GetId, s2);
    CountedBack(PutId, GetId, s3);
    BytesBack(s4);
    WrapBack();
    CountedBack(PutWrap, GetWrap, GetBytes(s4).rest);
  }

  lemma FieldsBack(s: Bytes)
    requires GetFields(s).Parsed? && SnapshotTyped(GetFields(s).value)
    ensures PutSnapshot(GetFields(s).value, GetFields(s).rest) == s
  {
    var s1 := GetId(s).rest;
    var s2 := GetCounted(GetId, s1).rest;
    var s3 := GetText(s2).rest;
    var s4 := GetI64(s3).rest;
    var s5 := GetText(s4).rest;
    var s6 := GetCounted(GetSecretRef, s5).rest;
    var s7 := GetCounted(GetPrefix, s6).rest;
    TakeBack(32, s);
    IdBack();
    CountedBack(PutId, GetId, s1);
    BytesBack(s2);
    I64Back(s3);
    BytesBack(s4);
    SecretRefBack();
    CountedBack(PutSecretRef, GetSecretRef, s5);
    PrefixBack();
    CountedBack(PutPrefix, GetPrefix, s6);
    WrapSetBack();
    CountedBack(PutWrapSet, GetWrapSet, s7);
  }

  // ---- the canonical bytes -------------------------------------------------------

  predicate Ends<T>(p: Parsed<T>) { p.Parsed? && p.rest == [] }

  /** Rules in the order of their prefixes, and the registers of each in the order of their keys. */
  ghost predicate RulesInOrder(ps: seq<ProtectPrefix>) {
    Sorted(ps, PrefixName) && forall i :: 0 <= i < |ps| ==> Sorted(ps[i].recipients, RegisterKey)
  }

  /** One whole object and no byte after it; map keys strictly ascending, sorted lists in order. */
  ghost predicate Canonical(b: Bytes) {
    b != [] &&
    var s := b[1..];
    match b[0]
    case 0 => true
    case 1 => Ends(GetCounted(GetEntry, s))
    case 3 => Ends(GetSecret(s))
    case 4 =>
      && Ends(GetFields(s))
      && Ascending(GetFields(s).value.secrets, SecretName) && Ascending(GetFields(s).value.wrapped, WrapSetId)
      && RulesInOrder(GetFields(s).value.prefixes)
    case 5 => |s| == 128
    case 6 => Ends(GetTranscript(s))
    case 7 => true
    case 8 =>
      && Ends(GetManifest(s))
      && Sorted(GetManifest(s).value.anchors, IdKey) && Sorted(GetManifest(s).value.closure, IdKey)
    case _ => false
  }

  lemma {:induction false} SortedIff<T>(xs: seq<T>, key: T -> Bytes)
    ensures Sort(xs, key) == xs <==> Sorted(xs, key)
  {
    SortSpec(xs, key);
    if Sorted(xs, key) { SortOfSorted(xs, key); }
  }

  lemma {:induction false} RulesCanonIff(ps: seq<ProtectPrefix>)
    ensures CanonEach(Sort(ps, PrefixName)) == ps <==> RulesInOrder(ps)
  {
    var qs := Sort(ps, PrefixName);
    SortSpec(ps, PrefixName);
    SortedIff(ps, PrefixName);
    if CanonEach(qs) == ps {
      assert forall i :: 0 <= i < |ps| ==> PrefixName(ps[i]) == PrefixName(qs[i]);
      assert Sorted(ps, PrefixName);
    }
    if qs == ps {
      forall i | 0 <= i < |ps| ensures CanonPrefix(ps[i]) == ps[i] <==> Sorted(ps[i].recipients, RegisterKey) {
        SortedIff(ps[i].recipients, RegisterKey);
      }
    }
  }

  lemma CanonIff(o: Object)
    ensures Canon(o) == o <==>
      match o
      case SnapshotObject(s) => RulesInOrder(s.prefixes)
      case ManifestObject(m) => Sorted(m.anchors, IdKey) && Sorted(m.closure, IdKey)
      case _ => true
  {
    match o
    case SnapshotObject(s) => RulesCanonIff(s.prefixes);
    case ManifestObject(m) =>
      SortedIff(m.anchors, IdKey);
      SortedIff(m.closure, IdKey);
    case _ =>
  }

  lemma CanonicalDecodes(b: Bytes)
    requires Canonical(b)
    ensures Decode(b).Some?
    ensures b[0] == 4 ==> GetSnapshot(b[1..]) == GetFields(b[1..])
  {
    if b[0] == 4 {
      CollectAscending(GetFields(b[1..]).value.secrets, SecretName);
      CollectAscending(GetFields(b[1..]).value.wrapped, WrapSetId);
    }
  }

  lemma CanonicalInOrder(b: Bytes)
    requires Canonical(b) && Decode(b).Some?
    requires b[0] == 4 ==> GetSnapshot(b[1..]) == GetFields(b[1..])
    ensures Canon(Decode(b).value) == Decode(b).value
  {
    CanonIff(Decode(b).value);
  }

  /** Bytes in canonical form are the print of the object they decode to, whose lists are in order. */
  lemma CanonicalPrints(b: Bytes)
    requires Canonical(b)
    ensures Decode(b).Some? && Typed(Decode(b).value)
    ensures Print(Decode(b).value) == b && Canon(Decode(b).value) == Decode(b).value
  {
    CanonicalDecodes(b);
    DecodeYieldsTyped(b);
    CanonicalInOrder(b);
    BodyPrints(b);
    TagRead(b);
    assert [b[0]] + b[1..] == b;
  }

  lemma TagRead(b: Bytes)
    requires Decode(b).Some?
    ensures Tag(Decode(b).value) == b[0]
  {
  }

  lemma BodyPrints(b: Bytes)
    requires Canonical(b) && Decode(b).Some? && Typed(Decode(b).value)
    requires b[0] == 4 ==> GetSnapshot(b[1..]) == GetFields(b[1..])
    ensures PrintBody(Decode(b).value) == b[1..]
  {
    var s := b[1..];
    match b[0]
    case 1 =>
      EntryBack();
      CountedBack(PutEntry, GetEntry, s);
    case 3 => SecretBack(s);
    case 4 => FieldsBack(s);
    case 5 => assert s[..32] + (s[32..64] + s[64..]) == s;
    case 6 => TranscriptBack(s);
    case 8 => ManifestBack(s);
    case _ =>
  }

  /** The print of an object whose lists are in order is canonical. */
  lemma PrintsCanonical(o: Object)
    requires Typed(o) && Canon(o) == o
    ensures Canonical(Print(o))
  {
    CanonIff(o);
    assert Print(o)[1..] == PrintBody(o);
    match o
    case Tree(es) => TreeLaw(es, []);
    case SecretObject(s) => SecretLaw(s, []);
    case SnapshotObject(s) => FieldsLaw(s, []);
    case TranscriptObject(t) => TranscriptLaw(t, []);
    case ManifestObject(m) => ManifestLaw(m, []);
    case _ =>
  }

  /** The bytes that are the encoding of an object are the canonical ones. */
  lemma EncodedIff(b: Bytes)
    ensures (exists o :: Typed(o) && b == Encode(o)) <==> Canonical(b)
  {
    if o :| Typed(o) && b == Encode(o) {
      EncodeDecode(o);
      CanonIdempotent(o);
      PrintsCanonical(Canon(o));
    }
    if Canonical(b) {
      CanonicalPrints(b);
      assert Encode(Decode(b).value) == b;
    }
  }

  /** And they are the ones that decoding and encoding gives back. */
  lemma ReencodesIff(b: Bytes)
    ensures Decode(b).Some? && Typed(Decode(b).value) && Encode(Decode(b).value) == b <==> Canonical(b)
  {
    EncodedIff(b);
    if Canonical(b) { CanonicalPrints(b); }
  }

  /** Bytes after a tree are ignored, so bytes with some are not what its encoding is. */
  lemma TrailingBytesLost(es: seq<TreeEntry>, tail: Bytes)
    requires Typed(Tree(es)) && tail != []
    ensures var b := [1] + PutCounted(es, PutEntry, tail);
      Decode(b) == Some(Tree(es)) && Encode(Tree(es)) != b
  {
    var b, c := [1] + PutCounted(es, PutEntry, tail), [1] + PutCounted(es, PutEntry, []);
    TreeLaw(es, tail);
    TreeLaw(es, []);
    assert b[1..] == PutCounted(es, PutEntry, tail) && c[1..] == PutCounted(es, PutEntry, []);
  }

  lemma LayoutInOrder(o: Object, w: Object)
    requires Layout(o, w)
    ensures Canon(w) == w
  {
    CanonIff(w);
    match o
    case SnapshotObject(s) =>
      SortSpec(s.prefixes, PrefixName);
      assert forall i :: 0 <= i < |w.snap.prefixes| ==>
        PrefixName(w.snap.prefixes[i]) == PrefixName(Sort(s.prefixes, PrefixName)[i]);
    case ManifestObject(m) =>
      SortSpec(m.anchors, IdKey);
      SortSpec(m.closure, IdKey);
    case _ =>
  }

  /** Whatever order the unstable sort leaves equal keys in, the program writes canonical bytes, and any
      canonical bytes it may write. */
  lemma WrittenIff(b: Bytes)
    ensures (exists o :: Typed(o) && MayEncode(o, b)) <==> Canonical(b)
  {
    if o :| Typed(o) && MayEncode(o, b) {
      var w :| Typed(w) && Layout(o, w) && b == Print(w);
      LayoutInOrder(o, w);
      PrintsCanonical(w);
    }
    if Canonical(b) {
      CanonicalPrints(b);
      CanonIsLayout(Decode(b).value);
    }
  }

  /** Decoding and encoding is sure to give the bytes back exactly when they are canonical and no rule in
      them lists two different registers for a key. */
  lemma SurelyReencodesIff(b: Bytes)
    requires Decode(b).Some?
    ensures (forall c :: MayEncode(Decode(b).value, c) ==> c == b) <==> Canonical(b) && WellFormed(Decode(b).value)
  {
    var o := Decode(b).value;
    DecodeYieldsTyped(b);
    CanonIsLayout(o);
    OneEncodingIff(o);
    ReencodesIff(b);
    if forall c :: MayEncode(o, c) ==> c == b { assert Encode(o) == b; }
  }
}
