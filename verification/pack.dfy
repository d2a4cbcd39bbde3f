/** The pack and index formats: what the writers emit, what the readers accept, and the laws
    that connect them. The hash, the compressor and the object codec are parameters. */
module Pack {
  import opened Octets
  import opened Sorting
  import opened Objects

  /** The content hash, the compressor and the object codec that packs and stores are used with. */
  datatype Prims = Prims(
    hash: Bytes -> Id, zip: Bytes -> Bytes, unzip: Bytes -> Option<Bytes>,
    encode: Object -> Bytes, decode: Bytes -> Option<Object>)

  ghost predicate PrimsOk(p: Prims) {
    && (forall b :: IsId(p.hash(b)))
    && (forall b :: p.unzip(p.zip(b)) == Some(b))
  }

  datatype Error =
    | NotFound
    | BudgetExceeded(needed: int, available: int, budget: int)
    | MalformedObject
    | PackCorrupt
    | BadPackIndex
    | IoError
    | Panic // the program would abort here
  datatype Result<+T> = Ok(value: T) | Err(error: Error)

  /** An object to pack: its id and canonical bytes. */
  datatype Item = Item(id: Id, canonical: Bytes)
  datatype IndexEntry = IndexEntry(id: Id, offset: nat, length: nat)
  datatype Loaded = Loaded(id: Id, obj: Object)

  const PACK_MAGIC: Bytes := [0x53, 0x43, 0x50, 0x4B]
  const INDEX_MAGIC: Bytes := [0x53, 0x43, 0x49, 0x58]
  const FORMAT_VERSION := 1

  function EntryId(e: IndexEntry): Bytes { e.id }

  /** An item the store would pack: content-addressed, decodable, framed in 32 bits. */
  predicate Packable(p: Prims, it: Item) {
    && p.hash(it.canonical) == it.id && IsId(it.id)
    && p.decode(it.canonical).Some?
    && |p.zip(it.canonical)| < U32
  }

  ghost predicate AllPackable(p: Prims, items: seq<Item>) {
    forall i :: 0 <= i < |items| ==> Packable(p, items[i])
  }

  ghost predicate DistinctIds(items: seq<Item>) {
    forall i, j :: 0 <= i < j < |items| ==> items[i].id != items[j].id
  }

  // ---- writing -------------------------------------------------------------------

  function PackHeader(): (h: Bytes)
    ensures |h| == 8
  {
    PACK_MAGIC + LittleEndian(4, FORMAT_VERSION)
  }

  function Record(p: Prims, it: Item): Bytes {
    var z := p.zip(it.canonical);
    it.id + (LittleEndian(4, |z|) + z)
  }

  function PackBody(p: Prims, items: seq<Item>): Bytes {
    if items == [] then [] else Record(p, items[0]) + PackBody(p, items[1..])
  }

  function PackBytes(p: Prims, items: seq<Item>): Bytes { PackHeader() + PackBody(p, items) }

  function EntryFor(p: Prims, items: seq<Item>, i: nat): IndexEntry
    requires i < |items|
  {
    IndexEntry(items[i].id, |PackBytes(p, items[..i])| + |items[i].id|, |p.zip(items[i].canonical)|)
  }

  /** The index rows in pack order. */
  function Entries(p: Prims, items: seq<Item>): (es: seq<IndexEntry>)
    ensures |es| == |items|
    ensures forall i :: 0 <= i < |items| ==> es[i] == EntryFor(p, items, i)
  {
    seq(|items|, i requires 0 <= i < |items| => EntryFor(p, items, i))
  }

  function Row(e: IndexEntry): Bytes { e.id + (LittleEndian(8, e.offset) + LittleEndian(8, e.length)) }

  function Rows(es: seq<IndexEntry>): Bytes {
    if es == [] then [] else Row(es[0]) + Rows(es[1..])
  }

  function IndexHeader(n: nat): (h: Bytes)
    ensures |h| == 16
  {
    INDEX_MAGIC + LittleEndian(4, FORMAT_VERSION) + LittleEndian(8, n)
  }

  function IndexBytes(es: seq<IndexEntry>): Bytes { IndexHeader(|es|) + Rows(es) }

  /** The index file of a pack: its rows sorted by id. */
  function PackIndex(p: Prims, items: seq<Item>): Bytes {
    IndexBytes(Sort(Entries(p, items), EntryId))
  }

  // ---- reading -------------------------------------------------------------------

  /** Rows of 48 bytes with strictly ascending ids. */
  function ParseRows(s: Bytes, prev: Option<Id>): Option<seq<IndexEntry>> {
    if |s| < 48 then Some([]) else
    var id := s[..32];
    if prev.Some? && LexLe(id, prev.value) then None else
    var e := IndexEntry(id, FromLittleEndian(s[32..40]), FromLittleEndian(s[40..48]));
    match ParseRows(s[48..], Some(id))
    case None => None
    case Some(es) => Some([e] + es)
  }

  function ParseIndex(idx: Bytes): Option<seq<IndexEntry>> {
    if |idx| < 16 || idx[..4] != INDEX_MAGIC then None
    else if FromLittleEndian(idx[4..8]) != FORMAT_VERSION then None
    else if |idx| != 16 + 48 * FromLittleEndian(idx[8..16]) then None
    else ParseRows(idx[16..], None)
  }

  /** The payload of the record whose length prefix is at `off`. */
  function Payload(pack: Bytes, off: nat, cap: Option<nat>): Option<Bytes> {
    if off + 4 > |pack| then None else
    var n := FromLittleEndian(pack[off..off + 4]);
    if cap.Some? && n > cap.value then None
    else if off + 4 + n > |pack| then None
    else Some(pack[off + 4..off + 4 + n])
  }

  /** Decompress under an optional cap, check the hash (`mismatch` if it is wrong), decode. */
  function Unpack(p: Prims, payload: Bytes, id: Id, cap: Option<nat>, mismatch: Error): Result<Object> {
    match p.unzip(payload)
    case None => Err(PackCorrupt)
    case Some(canonical) =>
      if cap.Some? && |canonical| > cap.value then Err(PackCorrupt)
      else if p.hash(canonical) != id then Err(mismatch)
      else match p.decode(canonical)
        case None => Err(MalformedObject)
        case Some(o) => Ok(o)
  }

  function ReadAt(p: Prims, pack: Bytes, off: nat, id: Id, cap: Option<nat>): Result<Object> {
    match Payload(pack, off, cap)
    case None => Err(PackCorrupt)
    case Some(payload) => Unpack(p, payload, id, cap, MalformedObject)
  }

  predicate HeaderOk(pack: Bytes) {
    |pack| >= 8 && pack[..4] == PACK_MAGIC && FromLittleEndian(pack[4..8]) == FORMAT_VERSION
  }

  /** What a pass over records delivers, and the error that stopped it, if any. */
  datatype Scan = Scan(delivered: seq<Loaded>, failure: Option<Error>)

  /** Records until a clean end, each capped at `cap` when there is one. */
  function ScanRecords(p: Prims, s: Bytes, cap: Option<nat>): Scan {
    if s == [] then Scan([], None)
    else if |s| < 36 then Scan([], Some(PackCorrupt))
    else match Payload(s, 32, cap)
      case None => Scan([], Some(PackCorrupt))
      case Some(payload) =>
        var id := s[..32];
        match Unpack(p, payload, id, cap, PackCorrupt)
        case Err(e) => Scan([], Some(e))
        case Ok(o) =>
          var rest := ScanRecords(p, s[36 + |payload|..], cap);
          Scan([Loaded(id, o)] + rest.delivered, rest.failure)
  }

  function ScanPack(p: Prims, pack: Bytes, cap: Option<nat>): Scan {
    if HeaderOk(pack) then ScanRecords(p, pack[8..], cap) else Scan([], Some(PackCorrupt))
  }

  // ---- the pack body ---------------------------------------------------------------

  lemma {:induction false} BodyConcat(p: Prims, xs: seq<Item>, ys: seq<Item>)
    ensures PackBody(p, xs + ys) == PackBody(p, xs) + PackBody(p, ys)
  {
    if xs == [] {
      assert xs + ys == ys;
    } else {
      BodyConcat(p, xs[1..], ys);
      assert (xs + ys)[1..] == xs[1..] + ys && (xs + ys)[0] == xs[0];
      Associative(Record(p, xs[0]), PackBody(p, xs[1..]), PackBody(p, ys));
    }
  }

  lemma {:induction false} BodySplit(p: Prims, items: seq<Item>, i: nat)
    requires i < |items|
    ensures PackBytes(p, items) == PackBytes(p, items[..i]) + (Record(p, items[i]) + PackBody(p, items[i + 1..]))
  {
    assert items == items[..i] + items[i..];
    BodyConcat(p, items[..i], items[i..]);
    assert items[i..][1..] == items[i + 1..];
    Associative(PackHeader(), PackBody(p, items[..i]), PackBody(p, items[i..]));
  }

  /** A packed record's payload is found at its indexed offset. */
  lemma PayloadLaw(p: Prims, it: Item, pre: Bytes, post: Bytes, cap: Option<nat>)
    requires |p.zip(it.canonical)| < U32
    ensures Payload(pre + (Record(p, it) + post), |pre| + |it.id|, cap)
         == if cap.Some? && |p.zip(it.canonical)| > cap.value then None else Some(p.zip(it.canonical))
  {
    var z := p.zip(it.canonical);
    var len := LittleEndian(4, |z|);
    var pack := pre + (Record(p, it) + post);
    var off := |pre| + |it.id|;
    Pow256Values();
    LittleEndianRoundTrip(4, |z|);
    assert pack == (pre + it.id) + (len + (z + post));
    assert pack[off..off + 4] == len;
    assert pack[off + 4..off + 4 + |z|] == z;
  }

  predicate OverCap(p: Prims, it: Item, cap: Option<nat>) {
    cap.Some? && (|p.zip(it.canonical)| > cap.value || |it.canonical| > cap.value)
  }

  /** Reading at an indexed offset returns that object, unless it is over the cap. */
  lemma ReadIndexed(p: Prims, items: seq<Item>, i: nat, cap: Option<nat>)
    requires PrimsOk(p) && i < |items| && Packable(p, items[i])
    ensures ReadAt(p, PackBytes(p, items), EntryFor(p, items, i).offset, items[i].id, cap)
         == if OverCap(p, items[i], cap) then Err(PackCorrupt) else Ok(p.decode(items[i].canonical).value)
  {
    BodySplit(p, items, i);
    PayloadLaw(p, items[i], PackBytes(p, items[..i]), PackBody(p, items[i + 1..]), cap);
  }

  function LoadedItem(p: Prims, it: Item): Loaded
    requires p.decode(it.canonical).Some?
  {
    Loaded(it.id, p.decode(it.canonical).value)
  }

  /** Everything in a list of packed items, as a reader should deliver it. */
  function LoadedItems(p: Prims, items: seq<Item>): (ls: seq<Loaded>)
    requires forall i :: 0 <= i < |items| ==> p.decode(items[i].canonical).Some?
    ensures |ls| == |items|
    ensures forall i :: 0 <= i < |items| ==> ls[i] == LoadedItem(p, items[i])
  {
    if items == [] then [] else [LoadedItem(p, items[0])] + LoadedItems(p, items[1..])
  }

  /** How many items come before the first over-cap one. */
  function UnderCap(p: Prims, items: seq<Item>, cap: Option<nat>): (k: nat)
    ensures k <= |items|
    ensures forall i :: 0 <= i < k ==> !OverCap(p, items[i], cap)
    ensures k < |items| ==> OverCap(p, items[k], cap)
  {
    if items == [] || OverCap(p, items[0], cap) then 0 else 1 + UnderCap(p, items[1..], cap)
  }

  /** The items before the first over-cap one, then a failure if there is such a one. */
  function CappedScan(p: Prims, items: seq<Item>, cap: Option<nat>): Scan
    requires forall i :: 0 <= i < |items| ==> Packable(p, items[i])
  {
    var k := UnderCap(p, items, cap);
    assert forall i :: 0 <= i < k ==> items[..k][i] == items[i] && Packable(p, items[i]);
    Scan(LoadedItems(p, items[..k]), if k == |items| then None else Some(PackCorrupt))
  }

  /** One packed record, read back. */
  lemma {:induction false} ScanOne(p: Prims, it: Item, post: Bytes, cap: Option<nat>)
    requires PrimsOk(p) && Packable(p, it)
    ensures ScanRecords(p, Record(p, it) + post, cap) ==
            if OverCap(p, it, cap) then Scan([], Some(PackCorrupt))
            else Scan([LoadedItem(p, it)] + ScanRecords(p, post, cap).delivered, ScanRecords(p, post, cap).failure)
  {
    var s := Record(p, it) + post;
    var z := p.zip(it.canonical);
    assert s == [] + s;
    PayloadLaw(p, it, [], post, cap);
    assert s[..32] == it.id;
    assert s[36 + |z|..] == post;
  }

  lemma {:induction false} ScanRecordsLaw(p: Prims, items: seq<Item>, cap: Option<nat>)
    requires PrimsOk(p) && AllPackable(p, items)
    ensures ScanRecords(p, PackBody(p, items), cap) == CappedScan(p, items, cap)
  {
    if items != [] {
      var it := items[0];
      assert Packable(p, it);
      ScanOne(p, it, PackBody(p, items[1..]), cap);
      if !OverCap(p, it, cap) {
        ScanRecordsLaw(p, items[1..], cap);
        var k := UnderCap(p, items[1..], cap);
        assert items[..k + 1][0] == it;
        assert items[..k + 1][1..] == items[1..][..k];
      }
    }
  }

  /** A pack of well-formed items: the reader delivers them in order up to the first one
      over the cap and then fails; without a cap it delivers them all. */
  lemma {:induction false} ScanPackLaw(p: Prims, items: seq<Item>, cap: Option<nat>)
    requires PrimsOk(p) && AllPackable(p, items)
    ensures ScanPack(p, PackBytes(p, items), cap) == CappedScan(p, items, cap)
    ensures cap.None? ==> ScanPack(p, PackBytes(p, items), cap) == Scan(LoadedItems(p, items), None)
  {
    var pack := PackBytes(p, items);
    Pow256Values();
    LittleEndianRoundTrip(4, FORMAT_VERSION);
    assert pack[..4] == PACK_MAGIC;
    assert pack[4..8] == LittleEndian(4, FORMAT_VERSION);
    assert pack[8..] == PackBody(p, items);
    ScanRecordsLaw(p, items, cap);
    if cap.None? { assert items[..|items|] == items; }
  }

  // ---- the index ---------------------------------------------------------------------

  predicate RowFits(e: IndexEntry) { IsId(e.id) && e.offset < U64 && e.length < U64 }

  lemma RowLaw(e: IndexEntry, post: Bytes)
    requires RowFits(e)
    ensures |Row(e) + post| == 48 + |post|
    ensures (Row(e) + post)[..32] == e.id && (Row(e) + post)[48..] == post
    ensures FromLittleEndian((Row(e) + post)[32..40]) == e.offset
    ensures FromLittleEndian((Row(e) + post)[40..48]) == e.length
  {
    Pow256Values();
    LittleEndianRoundTrip(8, e.offset);
    LittleEndianRoundTrip(8, e.length);
    RowSlices(e.id, LittleEndian(8, e.offset), LittleEndian(8, e.length), post);
  }

  lemma RowSlices(id: Bytes, a: Bytes, b: Bytes, post: Bytes)
    requires |id| == 32 && |a| == 8 && |b| == 8
    ensures var s := id + (a + b) + post;
      |s| == 48 + |post| && s[..32] == id && s[32..40] == a && s[40..48] == b && s[48..] == post
  {
  }

  /** Row ids strictly above `prev` and strictly ascending. */
  ghost predicate AscendingFrom(prev: Option<Id>, es: seq<IndexEntry>) {
    && Ascending(es, EntryId)
    && (prev.Some? && es != [] ==> LexLt(prev.value, es[0].id))
  }

  /** The row parser accepts exactly the strictly ascending rows, and returns them. */
  lemma {:induction false} RowsLaw(es: seq<IndexEntry>, prev: Option<Id>)
    requires forall i :: 0 <= i < |es| ==> RowFits(es[i])
    ensures ParseRows(Rows(es), prev) == if AscendingFrom(prev, es) then Some(es) else None
    ensures |Rows(es)| == 48 * |es|
  {
    if es != [] {
      var e, rest := es[0], es[1..];
      RowLaw(e, Rows(rest));
      RowsLaw(rest, Some(e.id));
      if prev.Some? { NotAbove(prev.value, e.id); }
      assert es == [e] + rest;
      AscendingTail(e, rest);
    }
  }

  lemma {:induction false} NotAbove(a: Id, b: Id)
    ensures !LexLe(b, a) <==> LexLt(a, b)
  {
    LexTotal(a, b);
    LexReflexive(a);
    if LexLe(b, a) && LexLe(a, b) { LexAntisymmetric(a, b); }
  }

  lemma AscendingTail(e: IndexEntry, rest: seq<IndexEntry>)
    ensures Ascending([e] + rest, EntryId) <==> AscendingFrom(Some(e.id), rest)
  {
    if AscendingFrom(Some(e.id), rest) { AscendingCons(e, rest); }
    if Ascending([e] + rest, EntryId) { AscendingUncons(e, rest); }
  }

  lemma AscendingUncons(e: IndexEntry, rest: seq<IndexEntry>)
    requires Ascending([e] + rest, EntryId)
    ensures AscendingFrom(Some(e.id), rest)
  {
    var es := [e] + rest;
    forall i, j | 0 <= i < j < |rest| ensures LexLt(EntryId(rest[i]), EntryId(rest[j])) {
      assert es[i + 1] == rest[i] && es[j + 1] == rest[j];
    }
    if rest != [] { assert es[0] == e && es[1] == rest[0]; }
  }

  lemma AscendingCons(e: IndexEntry, rest: seq<IndexEntry>)
    requires AscendingFrom(Some(e.id), rest)
    ensures Ascending([e] + rest, EntryId)
  {
    var es := [e] + rest;
    forall i, j | 0 <= i < j < |es| ensures LexLt(EntryId(es[i]), EntryId(es[j])) {
      if i > 0 {
        assert es[i] == rest[i - 1] && es[j] == rest[j - 1];
      } else if j > 1 {
        assert es[j] == rest[j - 1];
        LexTransitive(e.id, rest[0].id, rest[j - 1].id);
        if e.id == rest[j - 1].id { LexAntisymmetric(e.id, rest[0].id); }
      }
    }
  }

  lemma IndexLaw(es: seq<IndexEntry>)
    requires |es| < U64 && forall i :: 0 <= i < |es| ==> RowFits(es[i])
    ensures ParseIndex(IndexBytes(es)) == if Ascending(es, EntryId) then Some(es) else None
  {
    var idx := IndexBytes(es);
    Pow256Values();
    LittleEndianRoundTrip(4, FORMAT_VERSION);
    LittleEndianRoundTrip(8, |es|);
    RowsLaw(es, None);
    assert idx[..4] == INDEX_MAGIC;
    assert idx[4..8] == LittleEndian(4, FORMAT_VERSION);
    assert idx[8..16] == LittleEndian(8, |es|);
    assert idx[16..] == Rows(es);
  }

  /** Whatever rows are accepted are those the bytes spell. */
  lemma {:induction false} RowsSpell(s: Bytes, prev: Option<Id>)
    requires |s| % 48 == 0 && ParseRows(s, prev).Some?
    ensures var es := ParseRows(s, prev).value;
      Rows(es) == s && AscendingFrom(prev, es) && forall i :: 0 <= i < |es| ==> RowFits(es[i])
    decreases |s|
  {
    if |s| >= 48 {
      var e := IndexEntry(s[..32], FromLittleEndian(s[32..40]), FromLittleEndian(s[40..48]));
      RowsSpell(s[48..], Some(e.id));
      RowSpells(s, e);
      if prev.Some? { NotAbove(prev.value, e.id); }
      RowsCons(s, e, ParseRows(s[48..], Some(e.id)).value, prev);
    }
  }

  lemma RowSpells(s: Bytes, e: IndexEntry)
    requires |s| >= 48 && e == IndexEntry(s[..32], FromLittleEndian(s[32..40]), FromLittleEndian(s[40..48]))
    ensures Row(e) + s[48..] == s && RowFits(e)
  {
    Pow256Values();
    LittleEndianInverse(s[32..40]);
    LittleEndianInverse(s[40..48]);
    assert s == s[..32] + (s[32..40] + s[40..48]) + s[48..];
  }

  lemma {:induction false} RowsCons(s: Bytes, e: IndexEntry, rest: seq<IndexEntry>, prev: Option<Id>)
    requires |s| >= 48 && Row(e) + s[48..] == s && RowFits(e) && Rows(rest) == s[48..]
    requires AscendingFrom(Some(e.id), rest) && (prev.Some? ==> LexLt(prev.value, e.id))
    requires forall i :: 0 <= i < |rest| ==> RowFits(rest[i])
    ensures Rows([e] + rest) == s && AscendingFrom(prev, [e] + rest)
    ensures forall i :: 0 <= i < |[e] + rest| ==> RowFits(([e] + rest)[i])
  {
    assert ([e] + rest)[1..] == rest;
    AscendingCons(e, rest);
  }

  /** `parse_index` accepts exactly the index bytes of strictly ascending rows that fit their
      fields, and returns those rows. */
  lemma ParseIndexExact(idx: Bytes, es: seq<IndexEntry>)
    ensures ParseIndex(idx) == Some(es) <==>
      && idx == IndexBytes(es) && |es| < U64 && Ascending(es, EntryId)
      && forall i :: 0 <= i < |es| ==> RowFits(es[i])
  {
    if ParseIndex(idx) == Some(es) { ParsedSpells(idx, es); }
    if idx == IndexBytes(es) && |es| < U64 && forall i :: 0 <= i < |es| ==> RowFits(es[i]) { IndexLaw(es); }
  }

  lemma ParsedSpells(idx: Bytes, es: seq<IndexEntry>)
    requires ParseIndex(idx) == Some(es)
    ensures idx == IndexBytes(es) && |es| < U64 && Ascending(es, EntryId)
    ensures forall i :: 0 <= i < |es| ==> RowFits(es[i])
  {
    var n := FromLittleEndian(idx[8..16]);
    BodySpells(idx[16..], es, n);
    HeaderSpells(idx, n);
    assert idx == idx[..16] + idx[16..];
  }

  lemma {:induction false} BodySpells(body: Bytes, es: seq<IndexEntry>, n: nat)
    requires |body| == 48 * n && ParseRows(body, None) == Some(es)
    ensures Rows(es) == body && |es| == n && Ascending(es, EntryId)
    ensures forall i :: 0 <= i < |es| ==> RowFits(es[i])
  {
    RowsSpell(body, None);
    RowsLaw(es, None);
  }

  lemma HeaderSpells(idx: Bytes, n: nat)
    requires |idx| == 16 + 48 * n && idx[..4] == INDEX_MAGIC
    requires FromLittleEndian(idx[4..8]) == FORMAT_VERSION && FromLittleEndian(idx[8..16]) == n
    ensures idx[..16] == IndexHeader(n) && n < U64
  {
    Pow256Values();
    LittleEndianInverse(idx[4..8]);
    LittleEndianInverse(idx[8..16]);
    assert idx[..16] == idx[..4] + idx[4..8] + idx[8..16];
  }

  /** The pack fits 64-bit offsets. */
  predicate Fits(p: Prims, items: seq<Item>) { |PackBytes(p, items)| < U64 && |items| < U64 }

  lemma EntriesFit(p: Prims, items: seq<Item>)
    requires AllPackable(p, items) && Fits(p, items)
    ensures forall i :: 0 <= i < |items| ==> RowFits(Entries(p, items)[i])
  {
    forall i | 0 <= i < |items| ensures RowFits(Entries(p, items)[i]) {
      assert Packable(p, items[i]);
      BodySplit(p, items, i);
    }
  }

  /** Sorting by id is strictly ascending exactly when no id repeats. */
  lemma AscendingIffDistinct(p: Prims, items: seq<Item>)
    ensures Ascending(Sort(Entries(p, items), EntryId), EntryId) <==> DistinctIds(items)
  {
    var es := Entries(p, items);
    var ss := Sort(es, EntryId);
    SortSpec(es, EntryId);
    SortKeepsClasses(es, EntryId);
    if DistinctIds(items) {
      forall i, j | 0 <= i < j < |ss| ensures LexLt(EntryId(ss[i]), EntryId(ss[j])) {
        if ss[i].id == ss[j].id { var a, b := PairCarries(ss, es, EntryId, i, j); }
      }
    }
    if Ascending(ss, EntryId) {
      forall i, j | 0 <= i < j < |items| ensures items[i].id != items[j].id {
        if items[i].id == items[j].id {
          assert es[i].id == es[j].id;
          var a, b := PairCarries(es, ss, EntryId, i, j);
        }
      }
    }
  }

  /** `parse_index` inverts the index of a pack exactly when no id is packed twice; packing
      an id twice makes an index that every reload refuses. */
  lemma IndexInverts(p: Prims, items: seq<Item>)
    requires AllPackable(p, items) && Fits(p, items)
    ensures ParseIndex(PackIndex(p, items))
         == if DistinctIds(items) then Some(Sort(Entries(p, items), EntryId)) else None
  {
    var es := Entries(p, items);
    SortSpec(es, EntryId);
    EntriesFit(p, items);
    SortKeepsTyped(es, EntryId, RowFits);
    IndexLaw(Sort(es, EntryId));
    AscendingIffDistinct(p, items);
  }
}
