/** What the pack readers make of arbitrary bytes: where each delivered object lies and what was
    checked of it, and exactly why a read stops. */
module PackAccount {
  import opened Octets
  import opened Objects
  import opened Pack

  predicate Within(cap: Option<nat>, n: nat) { cap.Some? ==> n <= cap.value }

  /** Four bytes as a number, the first the least significant. */
  function Word(a: int, b: int, c: int, d: int): int { a + 256 * b + 65_536 * c + 16_777_216 * d }

  /** At `at`: 32 bytes of id, a length in four bytes, least significant first, and as many bytes. */
  predicate RecordAt(s: Bytes, at: nat, n: nat, cap: Option<nat>) {
    && at + 36 + n <= |s| && Within(cap, n)
    && Word(s[at + 32], s[at + 33], s[at + 34], s[at + 35]) == n
  }

  /** The record's bytes decompress, within the cap, to `c`, and the record's id is their hash. */
  ghost predicate Verified(p: Prims, s: Bytes, at: nat, n: nat, cap: Option<nat>, c: Bytes) {
    && RecordAt(s, at, n, cap)
    && p.unzip(s[at + 36..at + 36 + n]) == Some(c) && Within(cap, |c|)
    && p.hash(c) == s[at..at + 32]
  }

  ghost predicate SomeVerified(p: Prims, s: Bytes, at: nat, cap: Option<nat>) {
    exists n, c :: Verified(p, s, at, n, cap, c)
  }

  /** What is delivered is the object of a verified record, under that record's id. */
  ghost predicate Delivers(p: Prims, s: Bytes, at: nat, end: nat, l: Loaded, cap: Option<nat>) {
    && at + 36 <= end <= |s| && l.id == s[at..at + 32]
    && exists c :: Verified(p, s, at, end - at - 36, cap, c) && p.decode(c) == Some(l.obj)
  }

  /** Why a read stops: the end; a verified record that is no object; or no verified record. */
  ghost predicate StopsAt(p: Prims, s: Bytes, at: nat, cap: Option<nat>, failure: Option<Error>) {
    && at <= |s|
    && (failure.None? || failure == Some(MalformedObject) || failure == Some(PackCorrupt))
    && (failure.None? <==> at == |s|)
    && (failure == Some(PackCorrupt) <==> at < |s| && !SomeVerified(p, s, at, cap))
    && (failure == Some(MalformedObject) ==> exists n, c :: Verified(p, s, at, n, cap, c) && p.decode(c).None?)
  }

  /** The records of `s` from the first of `offs` on, each ending where the next begins. */
  ghost predicate Account(p: Prims, s: Bytes, offs: seq<nat>, cap: Option<nat>, r: Scan) {
    && |offs| == |r.delivered| + 1
    && (forall i {:trigger Delivers(p, s, offs[i], offs[i + 1], r.delivered[i], cap)} :: 0 <= i < |r.delivered| ==>
          Delivers(p, s, offs[i], offs[i + 1], r.delivered[i], cap))
    && StopsAt(p, s, offs[|r.delivered|], cap, r.failure)
  }

  lemma {:induction false} FourBytes(b: Bytes)
    requires |b| == 4
    ensures FromLittleEndian(b) == Word(b[0], b[1], b[2], b[3])
  {
    var b1: int, b2: int, b3: int := b[1], b[2], b[3];
    assert b[1..][1..] == b[2..] && b[2..][1..] == b[3..] && b[3..][1..] == [];
    assert FromLittleEndian(b[3..]) == b3;
    assert FromLittleEndian(b[2..]) == b2 + 256 * b3;
    assert FromLittleEndian(b[1..]) == b1 + 256 * (b2 + 256 * b3);
  }

  /** The payload found is the record's. */
  lemma PayloadIff(s: Bytes, at: nat, cap: Option<nat>, n: nat)
    requires at + 32 <= |s|
    ensures RecordAt(s, at, n, cap) <==> Payload(s, at + 32, cap).Some? && |Payload(s, at + 32, cap).value| == n
    ensures RecordAt(s, at, n, cap) ==> Payload(s, at + 32, cap).value == s[at + 36..at + 36 + n]
  {
    if at + 36 <= |s| { FourBytes(s[at + 32..at + 36]); }
  }

  lemma PayloadShift(s: Bytes, at: nat, cap: Option<nat>)
    requires at + 32 <= |s|
    ensures Payload(s[at..], 32, cap) == Payload(s, at + 32, cap)
  {
    if at + 36 <= |s| {
      assert s[at..][32..36] == s[at + 32..at + 36];
      var n := FromLittleEndian(s[at + 32..at + 36]);
      if at + 36 + n <= |s| { assert s[at..][36..36 + n] == s[at + 36..at + 36 + n]; }
    }
  }

  /** Unpacking succeeds exactly on a payload that decompresses within the cap to bytes with that hash,
      which decode; other bytes with that hash are malformed. */
  lemma UnpackIff(p: Prims, payload: Bytes, id: Id, cap: Option<nat>, mismatch: Error, o: Object)
    ensures Unpack(p, payload, id, cap, mismatch) == Ok(o) <==>
      exists c :: p.unzip(payload) == Some(c) && Within(cap, |c|) && p.hash(c) == id && p.decode(c) == Some(o)
    ensures forall c :: p.unzip(payload) == Some(c) && Within(cap, |c|) && p.hash(c) != id ==>
      Unpack(p, payload, id, cap, mismatch) == Err(mismatch)
    ensures forall c :: p.unzip(payload) == Some(c) && Within(cap, |c|) && p.hash(c) == id && p.decode(c).None? ==>
      Unpack(p, payload, id, cap, mismatch) == Err(MalformedObject)
    ensures p.unzip(payload).None? || !Within(cap, |p.unzip(payload).value|) ==>
      Unpack(p, payload, id, cap, mismatch) == Err(PackCorrupt)
  {
  }

  /** One record, of any bytes. */
  lemma RecordVerdict(p: Prims, s: Bytes, at: nat, cap: Option<nat>)
    requires at + 32 <= |s| && Payload(s, at + 32, cap).Some?
    ensures var payload := Payload(s, at + 32, cap).value;
      var end := at + 36 + |payload|;
      match Unpack(p, payload, s[at..at + 32], cap, PackCorrupt)
      case Ok(o) => Delivers(p, s, at, end, Loaded(s[at..at + 32], o), cap)
      case Err(e) => at < |s| && StopsAt(p, s, at, cap, Some(e))
  {
    var payload := Payload(s, at + 32, cap).value;
    PayloadIff(s, at, cap, |payload|);
    forall n | RecordAt(s, at, n, cap) ensures n == |payload| { PayloadIff(s, at, cap, n); }
    match Unpack(p, payload, s[at..at + 32], cap, PackCorrupt)
    case Ok(o) =>
      var c := p.unzip(payload).value;
      assert Verified(p, s, at, |payload|, cap, c);
    case Err(e) =>
      if e == MalformedObject {
        var c := p.unzip(payload).value;
        assert Verified(p, s, at, |payload|, cap, c);
      }
  }

  lemma NoRecord(p: Prims, s: Bytes, at: nat, cap: Option<nat>)
    requires at < |s| && (at + 32 > |s| || Payload(s, at + 32, cap).None?)
    ensures StopsAt(p, s, at, cap, Some(PackCorrupt))
  {
    forall n, c ensures !Verified(p, s, at, n, cap, c) {
      if at + 32 <= |s| { PayloadIff(s, at, cap, n); }
    }
  }

  /** Whatever the bytes: what a scan delivers was verified record by record, and it stops at the end,
      at verified bytes that are no object, or at the first record that cannot be verified. */
  lemma {:induction false} ScanAccount(p: Prims, s: Bytes, at: nat, cap: Option<nat>) returns (offs: seq<nat>)
    requires at <= |s|
    ensures offs != [] && offs[0] == at && Account(p, s, offs, cap, ScanRecords(p, s[at..], cap))
    decreases |s| - at
  {
    offs := [at];
    if at < |s| && (at + 36 > |s| || Payload(s[at..], 32, cap).None?) {
      if at + 32 <= |s| { PayloadShift(s, at, cap); }
      NoRecord(p, s, at, cap);
    } else if at < |s| {
      PayloadShift(s, at, cap);
      RecordVerdict(p, s, at, cap);
      var payload := Payload(s, at + 32, cap).value;
      assert s[at..][..32] == s[at..at + 32];
      if Unpack(p, payload, s[at..at + 32], cap, PackCorrupt).Ok? {
        var end := at + 36 + |payload|;
        var more := ScanAccount(p, s, end, cap);
        assert s[at..][36 + |payload|..] == s[end..];
        offs := offs + more;
        OneMore(p, s, at, more, cap, ScanRecords(p, s[end..], cap),
                Loaded(s[at..at + 32], Unpack(p, payload, s[at..at + 32], cap, PackCorrupt).value));
      }
    }
  }

  lemma OneMore(p: Prims, s: Bytes, at: nat, offs: seq<nat>, cap: Option<nat>, r: Scan, l: Loaded)
    requires offs != [] && Account(p, s, offs, cap, r) && Delivers(p, s, at, offs[0], l, cap)
    ensures Account(p, s, [at] + offs, cap, Scan([l] + r.delivered, r.failure))
  {
    var all, ls := [at] + offs, [l] + r.delivered;
    forall i | 0 <= i < |ls| ensures Delivers(p, s, all[i], all[i + 1], ls[i], cap) {
      if i > 0 {
        var k := i - 1;
        assert Delivers(p, s, offs[k], offs[k + 1], r.delivered[k], cap);
      }
    }
  }

  /** The same of a whole pack, whose first eight bytes are fixed. */
  lemma PackAccounted(p: Prims, pack: Bytes, cap: Option<nat>) returns (offs: seq<nat>)
    ensures [0x53, 0x43, 0x50, 0x4B, 1, 0, 0, 0] <= pack ==>
      offs != [] && offs[0] == 8 && Account(p, pack, offs, cap, ScanPack(p, pack, cap))
    ensures !([0x53, 0x43, 0x50, 0x4B, 1, 0, 0, 0] <= pack) ==> ScanPack(p, pack, cap) == Scan([], Some(PackCorrupt))
  {
    HeaderIff(pack);
    offs := [];
    if HeaderOk(pack) { offs := ScanAccount(p, pack, 8, cap); }
  }

  lemma HeaderIff(pack: Bytes)
    ensures HeaderOk(pack) <==> [0x53, 0x43, 0x50, 0x4B, 1, 0, 0, 0] <= pack
  {
    if |pack| >= 8 {
      assert pack[..8] == pack[..4] + pack[4..8];
      VersionIff(pack[4..8]);
    }
  }

  lemma {:induction false} VersionIff(b: Bytes)
    requires |b| == 4
    ensures FromLittleEndian(b) == 1 <==> b == [1, 0, 0, 0]
  {
    FourBytes(b);
  }

  /** Reading at an offset, of any bytes. A hash that differs is malformed here. */
  lemma ReadAtIff(p: Prims, s: Bytes, at: nat, id: Id, cap: Option<nat>, o: Object)
    requires at + 32 <= |s| && id == s[at..at + 32]
    ensures ReadAt(p, s, at + 32, id, cap) == Ok(o) <==>
      exists n, c :: Verified(p, s, at, n, cap, c) && p.decode(c) == Some(o)
    ensures ReadAt(p, s, at + 32, id, cap) == Err(MalformedObject) <==>
      exists n, c :: RecordAt(s, at, n, cap) && p.unzip(s[at + 36..at + 36 + n]) == Some(c) && Within(cap, |c|)
        && (p.hash(c) != id || p.decode(c).None?)
  {
    forall n | RecordAt(s, at, n, cap) ensures Payload(s, at + 32, cap) == Some(s[at + 36..at + 36 + n]) {
      PayloadIff(s, at, cap, n);
    }
    if Payload(s, at + 32, cap).Some? {
      var n := |Payload(s, at + 32, cap).value|;
      PayloadIff(s, at, cap, n);
      if p.unzip(s[at + 36..at + 36 + n]).Some? {
        var c := p.unzip(s[at + 36..at + 36 + n]).value;
        assert Verified(p, s, at, n, cap, c) <==> Within(cap, |c|) && p.hash(c) == id;
      }
    }
  }

  /** Nothing is delivered under an id that its bytes do not hash to. */
  lemma DeliveredVerified(p: Prims, pack: Bytes, cap: Option<nat>)
    ensures forall l :: l in ScanPack(p, pack, cap).delivered ==>
      exists c :: p.hash(c) == l.id && p.decode(c) == Some(l.obj)
  {
    var offs := PackAccounted(p, pack, cap);
    var ls := ScanPack(p, pack, cap).delivered;
    forall l | l in ls ensures exists c :: p.hash(c) == l.id && p.decode(c) == Some(l.obj) {
      var i :| 0 <= i < |ls| && ls[i] == l;
      assert Delivers(p, pack, offs[i], offs[i + 1], ls[i], cap);
    }
  }

  // ---- the formats byte by byte ------------------------------------------------------

  /** An index row says where its record lies: id, length and payload. */
  lemma EntryDescribes(p: Prims, items: seq<Item>, i: nat)
    requires i < |items| && IsId(items[i].id) && |p.zip(items[i].canonical)| < U32
    ensures var (e, pack) := (EntryFor(p, items, i), PackBytes(p, items));
      && e.id == items[i].id && e.offset >= 40
      && RecordAt(pack, e.offset - 32, e.length, None) && pack[e.offset - 32..e.offset] == e.id
      && pack[e.offset + 4..e.offset + 4 + e.length] == p.zip(items[i].canonical)
  {
    BodySplit(p, items, i);
    RecordLies(PackBytes(p, items[..i]), items[i].id, p.zip(items[i].canonical), PackBody(p, items[i + 1..]));
  }

  lemma {:induction false} RecordLies(pre: Bytes, id: Id, z: Bytes, post: Bytes)
    requires IsId(id) && |z| < U32
    ensures var s := pre + (id + (LittleEndian(4, |z|) + z) + post);
      && RecordAt(s, |pre|, |z|, None) && s[|pre|..|pre| + 32] == id && s[|pre| + 36..|pre| + 36 + |z|] == z
  {
    var len := LittleEndian(4, |z|);
    var s := pre + (id + (len + z) + post);
    Pow256Values();
    LittleEndianRoundTrip(4, |z|);
    FourBytes(len);
    RecordSlices(pre, id, len, z, post);
    FourAt(s, |pre| + 32);
  }

  lemma FourAt(s: Bytes, k: nat)
    requires k + 4 <= |s|
    ensures s[k..k + 4] == [s[k], s[k + 1], s[k + 2], s[k + 3]]
  {
  }

  lemma RecordSlices(pre: Bytes, id: Bytes, len: Bytes, z: Bytes, post: Bytes)
    requires |id| == 32 && |len| == 4
    ensures var s := pre + (id + (len + z) + post);
      && |s| == |pre| + 36 + |z| + |post| && s[|pre|..|pre| + 32] == id && s[|pre| + 32..|pre| + 36] == len
      && s[|pre| + 36..|pre| + 36 + |z|] == z
  {
  }

  /** Every pack begins with these eight bytes. */
  lemma PackBegins(p: Prims, items: seq<Item>)
    ensures [0x53, 0x43, 0x50, 0x4B, 1, 0, 0, 0] <= PackBytes(p, items)
  {
    OneInFour();
  }

  lemma {:induction false} OneInFour()
    ensures LittleEndian(4, 1) == [1, 0, 0, 0]
  {
    assert LittleEndian(1, 0) == [0];
    assert LittleEndian(2, 0) == [0, 0];
    assert LittleEndian(3, 0) == [0, 0, 0];
  }

  lemma {:induction false} RowPlaced(es: seq<IndexEntry>, i: nat)
    requires i < |es| && forall j :: 0 <= j < |es| ==> IsId(es[j].id)
    ensures |Rows(es)| == 48 * |es| && Rows(es)[48 * i..48 * i + 48] == Row(es[i])
    decreases |es|
  {
    var first, rest := Row(es[0]), Rows(es[1..]);
    if |es| > 1 { RowPlaced(es[1..], if i > 0 then i - 1 else 0); }
    if i > 0 { assert (first + rest)[48 * i..48 * i + 48] == rest[48 * (i - 1)..48 * (i - 1) + 48]; }
  }

  /** An index: eight fixed bytes, the number of rows, and for each row its id, offset and length, the
      numbers in eight bytes with the least significant first. */
  lemma {:induction false} IndexLayout(es: seq<IndexEntry>, i: nat, j: nat)
    requires i < |es| && j < 8 && forall k :: 0 <= k < |es| ==> IsId(es[k].id)
    ensures var (idx, row) := (IndexBytes(es), 16 + 48 * i);
      && |idx| == 16 + 48 * |es|
      && [0x53, 0x43, 0x49, 0x58, 1, 0, 0, 0] <= idx && idx[8 + j] == |es| / Pow256(j) % 256
      && idx[row..row + 32] == es[i].id
      && idx[row + 32 + j] == es[i].offset / Pow256(j) % 256 && idx[row + 40 + j] == es[i].length / Pow256(j) % 256
  {
    var idx, row := IndexBytes(es), 16 + 48 * i;
    OneInFour();
    RowPlaced(es, i);
    LittleEndianDigits(8, |es|, j);
    RowLayout(es[i], j);
    assert idx[row..row + 48] == Row(es[i]);
    RowInside(idx, row, j);
  }

  lemma RowInside(s: Bytes, k: nat, j: nat)
    requires k + 48 <= |s| && j < 8
    ensures s[k..k + 48][..32] == s[k..k + 32]
    ensures s[k..k + 48][32 + j] == s[k + 32 + j] && s[k..k + 48][40 + j] == s[k + 40 + j]
  {
  }

  lemma {:induction false} RowLayout(e: IndexEntry, j: nat)
    requires IsId(e.id) && j < 8
    ensures |Row(e)| == 48 && Row(e)[..32] == e.id
    ensures Row(e)[32 + j] == e.offset / Pow256(j) % 256 && Row(e)[40 + j] == e.length / Pow256(j) % 256
  {
    LittleEndianDigits(8, e.offset, j);
    LittleEndianDigits(8, e.length, j);
  }
}
