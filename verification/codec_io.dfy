/** The encoder and decoder as the program runs them: a growing output buffer and a cursor
    over the input, proved against the printer and the parser. */
module CodecIO {
  import opened Octets
  import opened Utf8
  import opened Sorting
  import opened Objects
  import opened Codec
  import opened CodecOrders

  // ---- writing -------------------------------------------------------------------

  /** The library's unstable sort: a sorted rearrangement, nothing more. */
  method SortUnstable<T>(xs: seq<T>, key: T -> Bytes) returns (ys: seq<T>)
    ensures multiset(ys) == multiset(xs) && Sorted(ys, key)
  {
    ys := Sort(xs, key);
    SortSpec(xs, key);
  }

  method SortIds(ids: seq<Id>) returns (sorted: seq<Id>)
    ensures sorted == Sort(ids, IdKey)
  {
    sorted := SortUnstable(ids, IdKey);
    RearrangementSortsAlike(ids, sorted, IdKey);
  }

  /** The order among registers of one key is the sort's to choose. */
  method SortRegisters(p: ProtectPrefix) returns (sorted: seq<RecipientEntry>)
    ensures LaidOut(p, p.(recipients := sorted)) && |sorted| == |p.recipients|
  {
    sorted := SortUnstable(p.recipients, RegisterKey);
    SameSize(p.recipients, sorted);
  }

  /** From `start`, the elements of `xs` before `i` have been appended, giving `now`. */
  ghost predicate Written<T>(start: Bytes, now: Bytes, xs: seq<T>, i: nat, put: (T, Bytes) -> Bytes)
    requires i <= |xs|
  {
    forall tail :: now + PutList(xs[i..], put, tail) == start + PutList(xs, put, tail)
  }

  lemma WriteNext<T>(start: Bytes, now: Bytes, next: Bytes, xs: seq<T>, i: nat, put: (T, Bytes) -> Bytes)
    requires i < |xs| && Written(start, now, xs, i, put)
    requires forall tail {:trigger put(xs[i], tail)} :: next + tail == now + put(xs[i], tail)
    ensures Written(start, next, xs, i + 1, put)
  {
    assert xs[i..][1..] == xs[i + 1..];
    forall tail: Bytes
      ensures next + PutList(xs[i + 1..], put, tail) == start + PutList(xs, put, tail)
    {
      assert PutList(xs[i..], put, tail) == put(xs[i], PutList(xs[i + 1..], put, tail));
    }
  }

  /** All of `xs` has been appended. */
  ghost predicate WrittenAll(start: Bytes, now: Bytes, xs: seq<ProtectPrefix>) {
    forall tail {:trigger PutList(xs, PutPrefix, tail)} :: now + tail == start + PutList(xs, PutPrefix, tail)
  }

  lemma {:induction false} PutListAppend(xs: seq<ProtectPrefix>, x: ProtectPrefix, tail: Bytes)
    ensures PutList(xs + [x], PutPrefix, tail) == PutList(xs, PutPrefix, PutPrefix(x, tail))
  {
    if xs == [] {
      assert [] + [x] == [x] && [x][1..] == [];
    } else {
      PutListAppend(xs[1..], x, tail);
      assert (xs + [x])[1..] == xs[1..] + [x];
    }
  }

  lemma WriteLast(start: Bytes, now: Bytes, next: Bytes, xs: seq<ProtectPrefix>, x: ProtectPrefix)
    requires WrittenAll(start, now, xs)
    requires forall tail {:trigger PutPrefix(x, tail)} :: next + tail == now + PutPrefix(x, tail)
    ensures WrittenAll(start, next, xs + [x])
  {
    forall tail: Bytes ensures next + tail == start + PutList(xs + [x], PutPrefix, tail) {
      PutListAppend(xs, x, tail);
      assert next + tail == now + PutPrefix(x, tail);
      assert now + PutPrefix(x, tail) == start + PutList(xs, PutPrefix, PutPrefix(x, tail));
    }
  }

  lemma {:induction false} WriteDone<T>(start: Bytes, now: Bytes, xs: seq<T>, put: (T, Bytes) -> Bytes)
    requires Written(start, now, xs, |xs|, put)
    ensures forall tail {:trigger PutList(xs, put, tail)} :: now + tail == start + PutList(xs, put, tail)
  {
    assert xs[|xs|..] == [];
    forall tail: Bytes ensures now + tail == start + PutList(xs, put, tail) {
      assert PutList(xs[|xs|..], put, tail) == tail;
    }
  }

  /** A buffer that only grows; each method appends exactly what the printer prints. */
  class Writer {
    var buf: Bytes

    constructor ()
      ensures buf == []
    {
      buf := [];
    }

    method Raw(b: Bytes)
      modifies this
      ensures buf == old(buf) + b
      ensures forall tail: Bytes {:trigger b + tail} :: buf + tail == old(buf) + (b + tail)
    {
      buf := buf + b;
      assert forall tail: Bytes {:trigger b + tail} :: (old(buf) + b) + tail == old(buf) + (b + tail);
    }

    method U32(n: nat)
      modifies this
      ensures forall tail: Bytes {:trigger PutU32(n, tail)} :: buf + tail == old(buf) + PutU32(n, tail)
    {
      Raw(BigEndian(4, n));
    }

    method I64(t: int)
      requires -I63 <= t < I63
      modifies this
      ensures forall tail: Bytes {:trigger PutI64(t, tail)} :: buf + tail == old(buf) + PutI64(t, tail)
    {
      Raw(BigEndian(8, if t < 0 then t + U64 else t));
    }

    method Prefixed(b: Bytes)
      modifies this
      ensures forall tail: Bytes {:trigger PutBytes(b, tail)} :: buf + tail == old(buf) + PutBytes(b, tail)
    {
      U32(|b|);
      Raw(b);
    }

    method Ids(ids: seq<Id>)
      modifies this
      ensures forall tail: Bytes {:trigger PutCounted(ids, PutId, tail)} ::
                buf + tail == old(buf) + PutCounted(ids, PutId, tail)
    {
      U32(|ids|);
      ghost var start := buf;
      for i := 0 to |ids|
        invariant Written(start, buf, ids, i, PutId)
      {
        ghost var now := buf;
        Raw(ids[i]);
        WriteNext(start, now, buf, ids, i, PutId);
      }
      WriteDone(start, buf, ids, PutId);
    }

    method Wraps(ws: seq<WrappedKey>)
      modifies this
      ensures forall tail: Bytes {:trigger PutCounted(ws, PutWrap, tail)} ::
                buf + tail == old(buf) + PutCounted(ws, PutWrap, tail)
    {
      U32(|ws|);
      ghost var start := buf;
      for i := 0 to |ws|
        invariant Written(start, buf, ws, i, PutWrap)
      {
        ghost var now := buf;
        Prefixed(ws[i].recipientId);
        Prefixed(ws[i].wrappedDek);
        WriteNext(start, now, buf, ws, i, PutWrap);
      }
      WriteDone(start, buf, ws, PutWrap);
    }

    method Entries(es: seq<TreeEntry>)
      modifies this
      ensures forall tail: Bytes {:trigger PutCounted(es, PutEntry, tail)} ::
                buf + tail == old(buf) + PutCounted(es, PutEntry, tail)
    {
      U32(|es|);
      ghost var start := buf;
      for i := 0 to |es|
        invariant Written(start, buf, es, i, PutEntry)
      {
        ghost var now := buf;
        Prefixed(es[i].name);
        Raw([KindByte(es[i].kind)]);
        Raw(es[i].id);
        U32(es[i].mode);
        Raw([es[i].perms]);
        WriteNext(start, now, buf, es, i, PutEntry);
      }
      WriteDone(start, buf, es, PutEntry);
    }

    method SecretRefs(rs: seq<SecretRef>)
      modifies this
      ensures forall tail: Bytes {:trigger PutCounted(rs, PutSecretRef, tail)} ::
                buf + tail == old(buf) + PutCounted(rs, PutSecretRef, tail)
    {
      U32(|rs|);
      ghost var start := buf;
      for i := 0 to |rs|
        invariant Written(start, buf, rs, i, PutSecretRef)
      {
        ghost var now := buf;
        Prefixed(rs[i].name);
        Raw(rs[i].id);
        WriteNext(start, now, buf, rs, i, PutSecretRef);
      }
      WriteDone(start, buf, rs, PutSecretRef);
    }

    method WrapSets(ws: seq<WrapSet>)
      modifies this
      ensures forall tail: Bytes {:trigger PutCounted(ws, PutWrapSet, tail)} ::
                buf + tail == old(buf) + PutCounted(ws, PutWrapSet, tail)
    {
      U32(|ws|);
      ghost var start := buf;
      for i := 0 to |ws|
        invariant Written(start, buf, ws, i, PutWrapSet)
      {
        ghost var now := buf;
        Raw(ws[i].id);
        Wraps(ws[i].keys);
        WriteNext(start, now, buf, ws, i, PutWrapSet);
      }
      WriteDone(start, buf, ws, PutWrapSet);
    }

    /** The registers of one prefix, sorted by key with the unstable sort. */
    method Registers(p: ProtectPrefix) returns (ghost q: ProtectPrefix)
      modifies this
      ensures LaidOut(p, q)
      ensures forall tail: Bytes {:trigger PutCounted(q.recipients, PutRegister, tail)} ::
                buf + tail == old(buf) + PutCounted(q.recipients, PutRegister, tail)
    {
      U32(|p.recipients|);
      var rs := SortRegisters(p);
      q := p.(recipients := rs);
      ghost var start := buf;
      for i := 0 to |rs|
        invariant Written(start, buf, rs, i, PutRegister)
      {
        ghost var now := buf;
        Raw(rs[i].key);
        U32(rs[i].epoch);
        Raw([StateByte(rs[i].state)]);
        WriteNext(start, now, buf, rs, i, PutRegister);
      }
      WriteDone(start, buf, rs, PutRegister);
    }

    method Prefixes(ps: seq<ProtectPrefix>) returns (ghost qs: seq<ProtectPrefix>)
      modifies this
      ensures AllLaidOut(ps, qs)
      ensures forall tail: Bytes {:trigger PutCounted(qs, PutPrefix, tail)} ::
                buf + tail == old(buf) + PutCounted(qs, PutPrefix, tail)
    {
      U32(|ps|);
      ghost var start := buf;
      qs := [];
      for i := 0 to |ps|
        invariant |qs| == i && (forall j :: 0 <= j < i ==> LaidOut(ps[j], qs[j]))
        invariant WrittenAll(start, buf, qs)
      {
        ghost var now := buf;
        Prefixed(ps[i].prefix);
        ghost var q := Registers(ps[i]);
        assert forall tail: Bytes {:trigger PutPrefix(q, tail)} :: buf + tail == now + PutPrefix(q, tail);
        WriteLast(start, now, buf, qs, q);
        qs := qs + [q];
      }
    }

    /** The snapshot as laid out. */
    method Snap(s: Snapshot) returns (ghost t: Snapshot)
      requires SnapshotTyped(s)
      modifies this
      ensures Layout(SnapshotObject(s), SnapshotObject(t)) && SnapshotTyped(t)
      ensures buf == old(buf) + PutSnapshot(t, [])
    {
      var sorted := Sort(s.prefixes, PrefixName);
      Raw(s.root);
      Ids(s.parents);
      Prefixed(s.author);
      I64(s.timestamp);
      Prefixed(s.message);
      SecretRefs(s.secrets);
      ghost var qs := Prefixes(sorted);
      WrapSets(s.wrapped);
      t := s.(prefixes := qs);
      LayoutTyped(SnapshotObject(s), SnapshotObject(t));
      SortSpec(s.prefixes, PrefixName);
      assert buf + [] == buf;
    }

    method Optional(id: Option<Bytes>)
      modifies this
      ensures forall tail: Bytes {:trigger PutOption(id, tail)} :: buf + tail == old(buf) + PutOption(id, tail)
    {
      match id {
        case None => Raw([0]);
        case Some(id) =>
          Raw([1]);
          Raw(id);
      }
    }

    method Branch(m: Manifest)
      modifies this
      ensures buf == old(buf) + PutManifest(Canon(ManifestObject(m)).manifest, [])
    {
      Raw(m.base);
      Optional(m.prev);
      var anchors := SortIds(m.anchors);
      var closure := SortIds(m.closure);
      Ids(anchors);
      Ids(closure);
      Prefixed(m.indexCt);
      Wraps(m.kekWraps);
      assert buf + [] == buf;
    }
  }

  /** Encode an object the way the program does: bytes it may have, and the canonical ones if no rule
      lists two different registers for a key. */
  method EncodeObject(o: Object) returns (b: Bytes)
    requires Typed(o)
    ensures MayEncode(o, b)
    ensures WellFormed(o) ==> b == Encode(o)
  {
    OneEncodingIff(o);
    ghost var out;
    b, out := WriteObject(o);
  }

  /** Write an object in a layout the encoder may choose. */
  method WriteObject(o: Object) returns (b: Bytes, ghost out: Object)
    requires Typed(o)
    ensures Typed(out) && Layout(o, out) && b == Print(out)
  {
    CanonKeepsTyped(o);
    var w := new Writer();
    out := Canon(o);
    w.Raw([Tag(o)]);
    match o {
      case Blob(c) => w.Raw(c);
      case Sealed(p) => w.Raw(p);
      case Tree(es) =>
        w.Entries(es);
        assert w.buf + [] == w.buf;
      case SnapshotObject(s) =>
        ghost var t := w.Snap(s);
        out := SnapshotObject(t);
      case SecretObject(s) =>
        w.Prefixed(s.name);
        w.Prefixed(s.nonce);
        w.Prefixed(s.ciphertext);
        w.Wraps(s.keys);
        assert w.buf + [] == w.buf;
      case Signature(id, signer, sig) =>
        w.Raw(id);
        w.Raw(signer);
        w.Raw(sig);
      case TranscriptObject(t) =>
        w.Raw(t.snapshot);
        w.Prefixed(t.agent);
        w.Prefixed(t.session);
        w.Prefixed(t.nonce);
        w.Prefixed(t.ciphertext);
        w.Wraps(t.keys);
        assert w.buf + [] == w.buf;
      case ManifestObject(m) => w.Branch(m);
    }
    b := w.buf;
  }

  // ---- reading -------------------------------------------------------------------

  /** A method's answer `r` and unread bytes `rest` are what the parser says. */
  ghost predicate Follows<T(!new)>(p: Parsed<T>, r: Option<T>, rest: Bytes) {
    match p
    case Malformed => r.None?
    case Parsed(v, s) => r == Some(v) && rest == s
  }

  ghost function Prepend<T>(xs: seq<T>, p: Parsed<seq<T>>): Parsed<seq<T>> {
    match p
    case Malformed => Malformed
    case Parsed(ys, s) => Parsed(xs + ys, s)
  }

  /** From `start`, the loop has read `got`; the remaining `n` elements decide the rest. */
  ghost predicate Reading<T(!new)>(start: Bytes, now: Bytes, total: nat, got: seq<T>, get: Bytes -> Parsed<T>)
    requires |got| <= total
  {
    GetList(total, get, start) == Prepend(got, GetList(total - |got|, get, now))
  }

  lemma {:induction false} ReadNext<T(!new)>(start: Bytes, now: Bytes, total: nat, got: seq<T>, get: Bytes -> Parsed<T>)
    requires |got| < total && Reading(start, now, total, got, get)
    ensures get(now).Malformed? ==> GetList(total, get, start).Malformed?
    ensures get(now).Parsed? ==> Reading(start, get(now).rest, total, got + [get(now).value], get)
  {
    if get(now).Parsed? {
      var p := GetList(total - |got| - 1, get, get(now).rest);
      if p.Parsed? { assert got + ([get(now).value] + p.value) == got + [get(now).value] + p.value; }
    }
  }

  lemma ReadStart<T(!new)>(start: Bytes, total: nat, get: Bytes -> Parsed<T>)
    ensures Reading(start, start, total, [], get)
  {
    var p := GetList(total, get, start);
    if p.Parsed? { assert [] + p.value == p.value; }
  }

  lemma {:induction false} ReadDone<T(!new)>(start: Bytes, now: Bytes, got: seq<T>, get: Bytes -> Parsed<T>)
    requires Reading(start, now, |got|, got, get)
    ensures GetList(|got|, get, start) == Parsed(got, now)
  {
    assert got + [] == got;
  }

  /** Room asked for, in elements, and the bytes that were left then. */
  datatype Reservation = Reservation(elements: nat, left: nat)

  /** A cursor over the input. `Rest` is what it has not read; `reserved` records every request for
      room, none for more elements than bytes were left. */
  class Reader {
    const buf: Bytes
    var pos: nat
    ghost var reserved: seq<Reservation>

    ghost predicate Valid()
      reads this
    {
      && pos <= |buf|
      && forall i :: 0 <= i < |reserved| ==> reserved[i].elements <= reserved[i].left <= |buf|
    }

    function Rest(): Bytes
      requires Valid()
      reads this
    {
      buf[pos..]
    }

    constructor (b: Bytes)
      ensures Valid() && buf == b && pos == 0 && Rest() == b && reserved == []
    {
      buf, pos, reserved := b, 0, [];
    }

    /** Allocate for `n` elements: never more than the bytes left. */
    method Reserve<T>(n: nat) returns (v: seq<T>)
      requires Valid() && n <= |Rest()|
      modifies this`reserved
      ensures Valid() && Rest() == old(Rest()) && v == []
      ensures reserved == old(reserved) + [Reservation(n, |Rest()|)]
    {
      v := [];
      reserved := reserved + [Reservation(n, |buf| - pos)];
    }

    method Take(n: nat) returns (r: Option<Bytes>)
      requires Valid()
      modifies this
      ensures Valid() && Follows(GetTake(n, old(Rest())), r, Rest())
    {
      if pos + n > |buf| {
        return None;
      }
      r := Some(buf[pos..pos + n]);
      pos := pos + n;
      assert buf[old(pos)..][..n] == buf[old(pos)..pos] && buf[old(pos)..][n..] == buf[pos..];
    }

    method U8() returns (r: Option<byte>)
      requires Valid()
      modifies this
      ensures Valid() && Follows(GetByte(old(Rest())), r, Rest())
    {
      var b := Take(1);
      if b.None? { return None; }
      r := Some(b.value[0]);
    }

    method U32() returns (r: Option<nat>)
      requires Valid()
      modifies this
      ensures Valid() && Follows(GetU32(old(Rest())), r, Rest())
    {
      var b := Take(4);
      if b.None? { return None; }
      r := Some(FromBigEndian(b.value));
    }

    method I64() returns (r: Option<int>)
      requires Valid()
      modifies this
      ensures Valid() && Follows(GetI64(old(Rest())), r, Rest())
    {
      var b := Take(8);
      if b.None? { return None; }
      var v := FromBigEndian(b.value);
      r := Some(if v >= I63 then v - U64 else v);
    }

    method Count() returns (r: Option<nat>)
      requires Valid()
      modifies this
      ensures Valid() && Follows(GetCount(old(Rest())), r, Rest())
      ensures r.Some? ==> r.value <= |Rest()|
    {
      var n := U32();
      if n.None? || n.value > |buf| - pos { return None; }
      r := n;
    }

    method Prefixed() returns (r: Option<Bytes>)
      requires Valid()
      modifies this
      ensures Valid() && Follows(GetBytes(old(Rest())), r, Rest())
    {
      var n := U32();
      if n.None? { return None; }
      r := Take(n.value);
    }

    method Str() returns (r: Option<Bytes>)
      requires Valid()
      modifies this
      ensures Valid() && Follows(GetText(old(Rest())), r, Rest())
      ensures r.Some? <==> GetBytes(old(Rest())).Parsed? && IsText(GetBytes(old(Rest())).value)
    {
      var b := Prefixed();
      if b.Some? { ValidIff(b.value); }
      if b.None? || !ValidUtf8(b.value) { return None; }
      r := b;
    }

    method Identifier() returns (r: Option<Id>)
      requires Valid()
      modifies this
      ensures Valid() && Follows(GetId(old(Rest())), r, Rest())
    {
      r := Take(32);
    }

    method Ids() returns (r: Option<seq<Id>>)
      requires Valid()
      modifies this
      ensures Valid() && Follows(GetCounted(GetId, old(Rest())), r, Rest())
    {
      var n := Count();
      if n.None? { return None; }
      ghost var start := Rest();
      var out: seq<Id> := Reserve(n.value);
      ReadStart(start, n.value, GetId);
      for i := 0 to n.value
        invariant Valid() && |out| == i && Reading(start, Rest(), n.value, out, GetId)
      {
        ReadNext(start, Rest(), n.value, out, GetId);
        var x := Identifier();
        if x.None? { return None; }
        out := out + [x.value];
      }
      ReadDone(start, Rest(), out, GetId);
      r := Some(out);
    }

    method Wrap() returns (r: Option<WrappedKey>)
      requires Valid()
      modifies this
      ensures Valid() && Follows(GetWrap(old(Rest())), r, Rest())
    {
      var id := Str();
      if id.None? { return None; }
      var dek := Prefixed();
      if dek.None? { return None; }
      r := Some(WrappedKey(id.value, dek.value));
    }

    method Wraps() returns (r: Option<seq<WrappedKey>>)
      requires Valid()
      modifies this
      ensures Valid() && Follows(GetCounted(GetWrap, old(Rest())), r, Rest())
    {
      var n := Count();
      if n.None? { return None; }
      ghost var start := Rest();
      var out: seq<WrappedKey> := Reserve(n.value);
      ReadStart(start, n.value, GetWrap);
      for i := 0 to n.value
        invariant Valid() && |out| == i && Reading(start, Rest(), n.value, out, GetWrap)
      {
        ReadNext(start, Rest(), n.value, out, GetWrap);
        var x := Wrap();
        if x.None? { return None; }
        out := out + [x.value];
      }
      ReadDone(start, Rest(), out, GetWrap);
      r := Some(out);
    }

    method Entry() returns (r: Option<TreeEntry>)
      requires Valid()
      modifies this
      ensures Valid() && Follows(GetEntry(old(Rest())), r, Rest())
    {
      var name := Str();
      if name.None? { return None; }
      var k := U8();
      if k.None? || k.value > 1 { return None; }
      var id := Identifier();
      if id.None? { return None; }
      var mode := U32();
      if mode.None? { return None; }
      var perms := U8();
      if perms.None? { return None; }
      r := Some(TreeEntry(name.value, if k.value == 0 then FileEntry else DirEntry, id.value, mode.value, perms.value));
    }

    method Entries() returns (r: Option<seq<TreeEntry>>)
      requires Valid()
      modifies this
      ensures Valid() && Follows(GetCounted(GetEntry, old(Rest())), r, Rest())
    {
      var n := Count();
      if n.None? { return None; }
      ghost var start := Rest();
      var out: seq<TreeEntry> := Reserve(n.value);
      ReadStart(start, n.value, GetEntry);
      for i := 0 to n.value
        invariant Valid() && |out| == i && Reading(start, Rest(), n.value, out, GetEntry)
      {
        ReadNext(start, Rest(), n.value, out, GetEntry);
        var x := Entry();
        if x.None? { return None; }
        out := out + [x.value];
      }
      ReadDone(start, Rest(), out, GetEntry);
      r := Some(out);
    }

    method Register() returns (r: Option<RecipientEntry>)
      requires Valid()
      modifies this
      ensures Valid() && Follows(GetRegister(old(Rest())), r, Rest())
    {
      var key := Take(32);
      if key.None? { return None; }
      var epoch := U32();
      if epoch.None? { return None; }
      var st := U8();
      if st.None? || st.value > 1 { return None; }
      r := Some(RecipientEntry(key.value, epoch.value, if st.value == 0 then Granted else Revoked));
    }

    method Registers() returns (r: Option<seq<RecipientEntry>>)
      requires Valid()
      modifies this
      ensures Valid() && Follows(GetCounted(GetRegister, old(Rest())), r, Rest())
    {
      var n := Count();
      if n.None? { return None; }
      ghost var start := Rest();
      var out: seq<RecipientEntry> := Reserve(n.value);
      ReadStart(start, n.value, GetRegister);
      for i := 0 to n.value
        invariant Valid() && |out| == i && Reading(start, Rest(), n.value, out, GetRegister)
      {
        ReadNext(start, Rest(), n.value, out, GetRegister);
        var x := Register();
        if x.None? { return None; }
        out := out + [x.value];
      }
      ReadDone(start, Rest(), out, GetRegister);
      r := Some(out);
    }

    method Prefix() returns (r: Option<ProtectPrefix>)
      requires Valid()
      modifies this
      ensures Valid() && Follows(GetPrefix(old(Rest())), r, Rest())
    {
      var prefix := Str();
      if prefix.None? { return None; }
      var rs := Registers();
      if rs.None? { return None; }
      r := Some(ProtectPrefix(prefix.value, rs.value));
    }

    method Prefixes() returns (r: Option<seq<ProtectPrefix>>)
      requires Valid()
      modifies this
      ensures Valid() && Follows(GetCounted(GetPrefix, old(Rest())), r, Rest())
    {
      var n := Count();
      if n.None? { return None; }
      ghost var start := Rest();
      var out: seq<ProtectPrefix> := Reserve(n.value);
      ReadStart(start, n.value, GetPrefix);
      for i := 0 to n.value
        invariant Valid() && |out| == i && Reading(start, Rest(), n.value, out, GetPrefix)
      {
        ReadNext(start, Rest(), n.value, out, GetPrefix);
        var x := Prefix();
        if x.None? { return None; }
        out := out + [x.value];
      }
      ReadDone(start, Rest(), out, GetPrefix);
      r := Some(out);
    }

    method NamedSecret() returns (r: Option<SecretRef>)
      requires Valid()
      modifies this
      ensures Valid() && Follows(GetSecretRef(old(Rest())), r, Rest())
    {
      var name := Str();
      if name.None? { return None; }
      var id := Identifier();
      if id.None? { return None; }
      r := Some(SecretRef(name.value, id.value));
    }

    /** The secret registry: entries inserted one by one into an ordered map. */
    method SecretMap() returns (r: Option<seq<SecretRef>>, ghost read: seq<SecretRef>)
      requires Valid()
      modifies this
      ensures Valid()
      ensures Follows(GetCounted(GetSecretRef, old(Rest())), if r.Some? then Some(read) else None, Rest())
      ensures r.Some? ==> r.value == Collect(read, SecretName)
    {
      read := [];
      var n := Count();
      if n.None? { return None, read; }
      ghost var start := Rest();
      var m: seq<SecretRef> := [];
      ReadStart(start, n.value, GetSecretRef);
      for i := 0 to n.value
        invariant Valid() && |read| == i && Reading(start, Rest(), n.value, read, GetSecretRef)
        invariant m == Collect(read, SecretName)
      {
        ReadNext(start, Rest(), n.value, read, GetSecretRef);
        var x := NamedSecret();
        if x.None? { return None, read; }
        m := Upsert(m, x.value, SecretName);
        assert (read + [x.value])[..i] == read;
        read := read + [x.value];
      }
      ReadDone(start, Rest(), read, GetSecretRef);
      r := Some(m);
    }

    method WrappedSet() returns (r: Option<WrapSet>)
      requires Valid()
      modifies this
      ensures Valid() && Follows(GetWrapSet(old(Rest())), r, Rest())
    {
      var id := Identifier();
      if id.None? { return None; }
      var keys := Wraps();
      if keys.None? { return None; }
      r := Some(WrapSet(id.value, keys.value));
    }

    /** The wrapped-key map, likewise. */
    method WrapMap() returns (r: Option<seq<WrapSet>>, ghost read: seq<WrapSet>)
      requires Valid()
      modifies this
      ensures Valid()
      ensures Follows(GetCounted(GetWrapSet, old(Rest())), if r.Some? then Some(read) else None, Rest())
      ensures r.Some? ==> r.value == Collect(read, WrapSetId)
    {
      read := [];
      var n := Count();
      if n.None? { return None, read; }
      ghost var start := Rest();
      var m: seq<WrapSet> := [];
      ReadStart(start, n.value, GetWrapSet);
      for i := 0 to n.value
        invariant Valid() && |read| == i && Reading(start, Rest(), n.value, read, GetWrapSet)
        invariant m == Collect(read, WrapSetId)
      {
        ReadNext(start, Rest(), n.value, read, GetWrapSet);
        var x := WrappedSet();
        if x.None? { return None, read; }
        m := Upsert(m, x.value, WrapSetId);
        assert (read + [x.value])[..i] == read;
        read := read + [x.value];
      }
      ReadDone(start, Rest(), read, GetWrapSet);
      r := Some(m);
    }

    method Snap() returns (r: Option<Snapshot>)
      requires Valid()
      modifies this
      ensures Valid() && Follows(GetSnapshot(old(Rest())), r, Rest())
    {
      var root := Identifier();
      if root.None? { return None; }
      var parents := Ids();
      if parents.None? { return None; }
      var author := Str();
      if author.None? { return None; }
      var timestamp := I64();
      if timestamp.None? { return None; }
      var message := Str();
      if message.None? { return None; }
      var secrets, _ := SecretMap();
      if secrets.None? { return None; }
      var prefixes := Prefixes();
      if prefixes.None? { return None; }
      var wrapped, _ := WrapMap();
      if wrapped.None? { return None; }
      r := Some(Snapshot(root.value, parents.value, author.value, timestamp.value, message.value,
                         secrets.value, prefixes.value, wrapped.value));
    }

    method SealedSecret() returns (r: Option<Secret>)
      requires Valid()
      modifies this
      ensures Valid() && Follows(GetSecret(old(Rest())), r, Rest())
    {
      var name := Str();
      if name.None? { return None; }
      var nonce := Prefixed();
      if nonce.None? { return None; }
      var ct := Prefixed();
      if ct.None? { return None; }
      var keys := Wraps();
      if keys.None? { return None; }
      r := Some(Secret(name.value, nonce.value, ct.value, keys.value));
    }

    method Session() returns (r: Option<Transcript>)
      requires Valid()
      modifies this
      ensures Valid() && Follows(GetTranscript(old(Rest())), r, Rest())
    {
      var id := Identifier();
      if id.None? { return None; }
      var agent := Str();
      if agent.None? { return None; }
      var session := Str();
      if session.None? { return None; }
      var nonce := Prefixed();
      if nonce.None? { return None; }
      var ct := Prefixed();
      if ct.None? { return None; }
      var keys := Wraps();
      if keys.None? { return None; }
      r := Some(Transcript(id.value, agent.value, session.value, nonce.value, ct.value, keys.value));
    }

    /** A signature object: fixed-width fields and nothing after them. */
    method Detached() returns (r: Option<Object>)
      requires Valid()
      modifies this
      ensures Valid() && r == DecodeBody(5, old(Rest()))
    {
      var id := Take(32);
      if id.None? { return None; }
      var signer := Take(32);
      if signer.None? { return None; }
      var sig := Take(64);
      if sig.None? || pos != |buf| { return None; }
      r := Some(Signature(id.value, signer.value, sig.value));
      ghost var s := old(Rest());
      assert s[32..][..32] == s[32..64] && s[32..][32..] == s[64..] && s[64..][..64] == s[64..];
    }

    method Branch() returns (r: Option<Manifest>)
      requires Valid()
      modifies this
      ensures Valid() && Follows(GetManifest(old(Rest())), r, Rest())
    {
      var base := Identifier();
      if base.None? { return None; }
      var mark := U8();
      if mark.None? || mark.value > 1 { return None; }
      var prev: Option<Id> := None;
      if mark.value == 1 {
        var id := Identifier();
        if id.None? { return None; }
        prev := id;
      }
      var anchors := Ids();
      if anchors.None? { return None; }
      var closure := Ids();
      if closure.None? { return None; }
      var index := Prefixed();
      if index.None? { return None; }
      var wraps := Wraps();
      if wraps.None? { return None; }
      r := Some(Manifest(base.value, prev, anchors.value, closure.value, index.value, wraps.value));
    }
  }

  /** Decode an object the way the program does. */
  method DecodeObject(b: Bytes) returns (r: Option<Object>)
    ensures r == Decode(b)
  {
    var rd := new Reader(b);
    r := DecodeWith(rd);
  }

  /** Decode what a cursor has not read. It stays valid: it never passes the end, and no room is asked
      for that the bytes left could not fill. */
  method DecodeWith(rd: Reader) returns (r: Option<Object>)
    requires rd.Valid()
    modifies rd
    ensures rd.Valid() && r == Decode(old(rd.Rest()))
  {
    var tag := rd.U8();
    if tag.None? { return None; }
    match tag.value {
      case 0 => r := Some(Blob(rd.Rest()));
      case 1 =>
        var es := rd.Entries();
        r := if es.None? then None else Some(Tree(es.value));
      case 3 =>
        var x := rd.SealedSecret();
        r := if x.None? then None else Some(SecretObject(x.value));
      case 4 =>
        var s := rd.Snap();
        r := if s.None? then None else Some(SnapshotObject(s.value));
      case 5 =>
        r := rd.Detached();
      case 6 =>
        var t := rd.Session();
        r := if t.None? then None else Some(TranscriptObject(t.value));
      case 7 => r := Some(Sealed(rd.Rest()));
      case 8 =>
        var m := rd.Branch();
        r := if m.None? then None else Some(ManifestObject(m.value));
      case _ => r := None;
    }
  }
}
