/** The pack writers and readers as loops over buffers and streams, proved against the format. */
module PackIO {
  import opened Octets
  import opened Sorting
  import opened Objects
  import opened Pack
  import opened PackAccount
  import opened Intake

  // ---- writing -------------------------------------------------------------------

  lemma PackGrows(p: Prims, items: seq<Item>, i: nat)
    requires i < |items|
    ensures PackBytes(p, items[..i + 1]) == PackBytes(p, items[..i]) + Record(p, items[i])
    ensures Entries(p, items[..i + 1]) == Entries(p, items[..i]) + [EntryFor(p, items, i)]
  {
    var front := items[..i + 1];
    assert front == items[..i] + [items[i]];
    BodyConcat(p, items[..i], [items[i]]);
    assert PackBody(p, [items[i]]) == Record(p, items[i]);
    forall j | 0 <= j <= i ensures Entries(p, front)[j] == EntryFor(p, items, j) {
      assert front[..j] == items[..j];
    }
    forall j | 0 <= j < i ensures Entries(p, items[..i])[j] == EntryFor(p, items, j) {
      assert items[..i][..j] == items[..j];
    }
  }

  /** One more item: its record, and its row with the offset of the record's length. */
  lemma PackAppends(p: Prims, items: seq<Item>, it: Item)
    requires IsId(it.id)
    ensures PackBytes(p, items + [it]) == PackBytes(p, items) + Record(p, it)
    ensures Entries(p, items + [it])
         == Entries(p, items) + [IndexEntry(it.id, |PackBytes(p, items)| + 32, |p.zip(it.canonical)|)]
  {
    var all := items + [it];
    PackGrows(p, all, |items|);
    assert all[..|items|] == items && all[..|items| + 1] == all;
  }

  lemma {:induction false} RowsConcat(xs: seq<IndexEntry>, ys: seq<IndexEntry>)
    ensures Rows(xs + ys) == Rows(xs) + Rows(ys)
  {
    if xs == [] {
      assert xs + ys == ys;
    } else {
      RowsConcat(xs[1..], ys);
      assert (xs + ys)[1..] == xs[1..] + ys;
    }
  }

  /** The index file of rows already sorted. */
  method WriteIndex(es: seq<IndexEntry>) returns (idx: Bytes)
    ensures idx == IndexBytes(es)
  {
    idx := IndexHeader(|es|);
    for i := 0 to |es|
      invariant idx == IndexHeader(|es|) + Rows(es[..i])
    {
      assert es[..i + 1] == es[..i] + [es[i]];
      RowsConcat(es[..i], [es[i]]);
      assert Rows([es[i]]) == Row(es[i]);
      Associative(IndexHeader(|es|), Rows(es[..i]), Row(es[i]));
      idx := idx + Row(es[i]);
    }
    assert es[..|es|] == es;
  }

  /** The batch writer. */
  method BuildPack(p: Prims, items: seq<Item>) returns (pack: Bytes, idx: Bytes)
    ensures pack == PackBytes(p, items) && idx == PackIndex(p, items)
  {
    pack := PACK_MAGIC + LittleEndian(4, FORMAT_VERSION);
    var entries: seq<IndexEntry> := [];
    for i := 0 to |items|
      invariant pack == PackBytes(p, items[..i]) && entries == Entries(p, items[..i])
    {
      PackGrows(p, items, i);
      var z := p.zip(items[i].canonical);
      pack := pack + items[i].id;
      var offset := |pack|;
      pack := pack + LittleEndian(4, |z|);
      pack := pack + z;
      entries := entries + [IndexEntry(items[i].id, offset, |z|)];
    }
    assert items[..|items|] == items;
    idx := WriteIndex(Sort(entries, EntryId));
  }

  /** The incremental writer: only the rows are kept, the body goes straight out. */
  class PackWriter {
    const prims: Prims
    const expected: nat
    var out: Bytes
    var pos: nat
    var written: nat
    var entries: seq<IndexEntry>
    ghost var items: seq<Item>

    ghost predicate Valid()
      reads this
    {
      && out == PackBytes(prims, items) && pos == |out|
      && entries == Entries(prims, items) && written == |items|
    }

    constructor (p: Prims, count: nat)
      ensures Valid() && items == [] && prims == p && expected == count
    {
      prims, expected := p, count;
      out := PACK_MAGIC + LittleEndian(4, FORMAT_VERSION);
      pos, written, entries, items := 8, 0, [], [];
    }

    method WriteObject(id: Id, canonical: Bytes)
      requires Valid() && IsId(id)
      modifies this
      ensures Valid() && items == old(items) + [Item(id, canonical)]
    {
      var z := prims.zip(canonical);
      PackAppends(prims, items, Item(id, canonical));
      Associative(out, id, LittleEndian(4, |z|) + z);
      Associative(out + id, LittleEndian(4, |z|), z);
      out := out + id;
      pos := pos + 32;
      var offset := pos;
      out := out + LittleEndian(4, |z|);
      pos := pos + 4;
      out := out + z;
      pos := pos + |z|;
      entries := entries + [IndexEntry(id, offset, |z|)];
      written := written + 1;
      items := items + [Item(id, canonical)];
    }

    /** The index, or an error when the promised count was not written. */
    method Finish() returns (idx: Result<Bytes>)
      requires Valid()
      ensures idx == if |items| == expected then Ok(PackIndex(prims, items)) else Err(PackCorrupt)
    {
      if written != expected { return Err(PackCorrupt); }
      var b := WriteIndex(Sort(entries, EntryId));
      idx := Ok(b);
    }
  }

  /** Both writers emit the same files for the same objects. */
  method WritersAgree(p: Prims, items: seq<Item>) returns (pack: Bytes, idx: Result<Bytes>)
    requires forall i :: 0 <= i < |items| ==> IsId(items[i].id)
    ensures pack == PackBytes(p, items) && idx == Ok(PackIndex(p, items))
  {
    var w := new PackWriter(p, |items|);
    for i := 0 to |items|
      invariant w.Valid() && w.prims == p && w.expected == |items| && w.items == items[..i] && fresh(w)
    {
      w.WriteObject(items[i].id, items[i].canonical);
    }
    assert items[..|items|] == items;
    pack := w.out;
    idx := w.Finish();
  }

  // ---- reading -------------------------------------------------------------------

  /** Parse an index file row by row, checking the order as it goes. */
  method ReadIndex(idx: Bytes) returns (r: Option<seq<IndexEntry>>)
    ensures r == ParseIndex(idx)
  {
    if |idx| < 16 || idx[..4] != INDEX_MAGIC { return None; }
    if FromLittleEndian(idx[4..8]) != FORMAT_VERSION { return None; }
    var count := FromLittleEndian(idx[8..16]);
    if |idx| != 16 + 48 * count { return None; }
    var out: seq<IndexEntry> := [];
    var prev: Option<Id> := None;
    JoinNothing(ParseRows(idx[16..], None));
    for i := 0 to count
      invariant Joined(out, ParseRows(idx[16 + 48 * i..], prev)) == ParseRows(idx[16..], None)
    {
      var base := 16 + 48 * i;
      ghost var s := idx[base..];
      var id := idx[base..base + 32];
      assert s[..32] == id && s[48..] == idx[base + 48..];
      if prev.Some? && LexLe(id, prev.value) { return None; }
      var offset := FromLittleEndian(idx[base + 32..base + 40]);
      var length := FromLittleEndian(idx[base + 40..base + 48]);
      assert s[32..40] == idx[base + 32..base + 40] && s[40..48] == idx[base + 40..base + 48];
      JoinStep(out, IndexEntry(id, offset, length), ParseRows(s[48..], Some(id)));
      prev := Some(id);
      out := out + [IndexEntry(id, offset, length)];
    }
    assert idx[16 + 48 * count..] == [];
    assert out + [] == out;
    r := Some(out);
  }

  function Joined(out: seq<IndexEntry>, rest: Option<seq<IndexEntry>>): Option<seq<IndexEntry>> {
    match rest
    case None => None
    case Some(es) => Some(out + es)
  }

  lemma JoinNothing(rest: Option<seq<IndexEntry>>)
    ensures Joined([], rest) == rest
  {
    if rest.Some? { assert [] + rest.value == rest.value; }
  }

  lemma JoinStep(out: seq<IndexEntry>, e: IndexEntry, rest: Option<seq<IndexEntry>>)
    ensures Joined(out + [e], rest) == Joined(out, Joined([e], rest))
  {
    if rest.Some? { assert out + [e] + rest.value == out + ([e] + rest.value); }
  }

  function Extend(out: seq<Loaded>, rest: Scan): Scan { Scan(out + rest.delivered, rest.failure) }

  lemma ExtendNothing(rest: Scan)
    ensures Extend([], rest) == rest
  {
    assert [] + rest.delivered == rest.delivered;
  }

  /** How a scan that has delivered `out` goes on at the records `s`. */
  lemma {:induction false} ScanStep(p: Prims, out: seq<Loaded>, s: Bytes, cap: Option<nat>)
    ensures s == [] ==> Extend(out, ScanRecords(p, s, cap)) == Scan(out, None)
    ensures 0 < |s| < 36 || (|s| >= 36 && Payload(s, 32, cap).None?) ==>
              Extend(out, ScanRecords(p, s, cap)) == Scan(out, Some(PackCorrupt))
    ensures |s| >= 36 && Payload(s, 32, cap).Some? ==>
              var payload := Payload(s, 32, cap).value;
              match Unpack(p, payload, s[..32], cap, PackCorrupt)
              case Err(e) => Extend(out, ScanRecords(p, s, cap)) == Scan(out, Some(e))
              case Ok(o) =>
                Extend(out, ScanRecords(p, s, cap)) ==
                Extend(out + [Loaded(s[..32], o)], ScanRecords(p, s[36 + |payload|..], cap))
  {
    if |s| < 36 || Payload(s, 32, cap).None? {
      assert out + [] == out;
    } else {
      var payload := Payload(s, 32, cap).value;
      match Unpack(p, payload, s[..32], cap, PackCorrupt)
      case Err(e) => assert out + [] == out;
      case Ok(o) =>
        var rest := ScanRecords(p, s[36 + |payload|..], cap).delivered;
        assert out + [Loaded(s[..32], o)] + rest == out + ([Loaded(s[..32], o)] + rest);
    }
  }

  lemma SliceSlice(s: Bytes, pos: nat, i: nat, j: nat)
    requires i <= j <= |s| - pos
    ensures s[pos..][i..j] == s[pos + i..pos + j] && s[pos..][j..] == s[pos + j..]
    ensures s[pos..][..j] == s[pos..pos + j]
  {
  }

  /** The record at `pos`, by offsets into the whole pack. */
  lemma RecordAt(pack: Bytes, pos: nat)
    requires pos + 36 <= |pack|
    ensures pack[pos..][..32] == pack[pos..pos + 32]
    ensures var n := FromLittleEndian(pack[pos + 32..pos + 36]);
      && (pos + 36 + n > |pack| ==> Payload(pack[pos..], 32, None).None?)
      && (pos + 36 + n <= |pack| ==>
            Payload(pack[pos..], 32, None) == Some(pack[pos + 36..pos + 36 + n])
            && pack[pos..][36 + n..] == pack[pos + 36 + n..])
  {
    var n := FromLittleEndian(pack[pos + 32..pos + 36]);
    SliceSlice(pack, pos, 0, 32);
    SliceSlice(pack, pos, 32, 36);
    if pos + 36 + n <= |pack| { SliceSlice(pack, pos, 36, 36 + n); }
  }

  /** One more record, by offsets into the whole pack. */
  lemma {:induction false} ScanAt(p: Prims, out: seq<Loaded>, pack: Bytes, pos: nat)
    requires pos < |pack|
    ensures var all := Extend(out, ScanRecords(p, pack[pos..], None));
      if pos + 36 > |pack| then all == Scan(out, Some(PackCorrupt)) else
      var n := FromLittleEndian(pack[pos + 32..pos + 36]);
      if pos + 36 + n > |pack| then all == Scan(out, Some(PackCorrupt)) else
      match Unpack(p, pack[pos + 36..pos + 36 + n], pack[pos..pos + 32], None, PackCorrupt)
      case Err(e) => all == Scan(out, Some(e))
      case Ok(o) =>
        all == Extend(out + [Loaded(pack[pos..pos + 32], o)], ScanRecords(p, pack[pos + 36 + n..], None))
  {
    ScanStep(p, out, pack[pos..], None);
    if pos + 36 <= |pack| { RecordAt(pack, pos); }
  }

  /** Parse a whole pack in memory. */
  method ParsePack(p: Prims, pack: Bytes) returns (r: Scan)
    ensures r == ScanPack(p, pack, None)
    ensures forall l :: l in r.delivered ==> exists c :: p.hash(c) == l.id && p.decode(c) == Some(l.obj)
  {
    DeliveredVerified(p, pack, None);
    if |pack| < 8 || pack[..4] != PACK_MAGIC { return Scan([], Some(PackCorrupt)); }
    if FromLittleEndian(pack[4..8]) != FORMAT_VERSION { return Scan([], Some(PackCorrupt)); }
    r := ParseRecords(p, pack);
  }

  method ParseRecords(p: Prims, pack: Bytes) returns (r: Scan)
    requires HeaderOk(pack)
    ensures r == ScanPack(p, pack, None)
  {
    var out: seq<Loaded> := [];
    var pos := 8;
    ExtendNothing(ScanRecords(p, pack[8..], None));
    while pos < |pack|
      invariant 8 <= pos <= |pack|
      invariant Extend(out, ScanRecords(p, pack[pos..], None)) == ScanPack(p, pack, None)
    {
      ScanAt(p, out, pack, pos);
      if pos + 36 > |pack| { return Scan(out, Some(PackCorrupt)); }
      var id := pack[pos..pos + 32];
      var n := FromLittleEndian(pack[pos + 32..pos + 36]);
      if pos + 36 + n > |pack| { return Scan(out, Some(PackCorrupt)); }
      var payload := pack[pos + 36..pos + 36 + n];
      var o := Unpack(p, payload, id, None, PackCorrupt);
      if o.Err? { return Scan(out, Some(o.error)); }
      out := out + [Loaded(id, o.value)];
      pos := pos + 36 + n;
    }
    ScanStep(p, out, pack[pos..], None);
    r := Scan(out, None);
  }

  /** Fill up to `n` bytes; fewer only at the end of the stream. Fails exactly when a fault or an
      interruption comes before them. */
  method ReadUpTo(src: Source, n: nat) returns (r: Option<Bytes>)
    requires src.Valid()
    modifies src
    ensures src.Valid()
    ensures r.None? <==> BrokenWithin(old(src.events), n)
    ensures r.Some? ==> Content(old(src.events)) == r.value + Content(src.events)
    ensures r.Some? ==> |r.value| == Min(n, |Content(old(src.events))|)
    ensures r.Some? ==> src.events == Skip(old(src.events), n)
  {
    var buf: Bytes := [];
    ProgressStart(src.events, n);
    while |buf| < n
      invariant Progress(old(src.events), src.events, buf, n)
      invariant BrokenWithin(old(src.events), n) <==> BrokenWithin(src.events, n - |buf|)
    {
      ghost var es := src.events;
      var got := src.Read(n - |buf|);
      ReadBroken(es, n - |buf|, n - |buf|, got, src.events);
      ProgressStep(old(src.events), es, buf, n - |buf|, n, got, src.events);
      if !got.Got? { return None; }
      buf := buf + got.bytes;
      if got.bytes == [] { break; }
    }
    ProgressEnds(old(src.events), src.events, buf, n);
    r := Some(buf);
  }

  lemma {:induction false} CleanUnbroken(es: seq<Event>, limit: nat)
    ensures Clean(es) ==> !BrokenWithin(es, limit)
    decreases |es|
  {
    if es != [] && limit > 0 && es[0].Chunk? { CleanUnbroken(es[1..], limit - Min(|es[0].bytes|, limit)); }
  }

  /** What a decompressing reader of `payload` yields: its output, or some of it and a fault. */
  ghost predicate Decodes(p: Prims, payload: Bytes, es: seq<Event>) {
    match p.unzip(payload)
    case Some(c) => Content(es) == c && FaultFree(es)
    case None => !FaultFree(es)
  }

  /** The library's decompressing reader, which makes its output as it is read. */
  method OpenDecoder(p: Prims, payload: Bytes) returns (d: Source)
    ensures fresh(d) && d.Valid() && Decodes(p, payload, d.events)
  {
    match p.unzip(payload) {
      case None =>
        d := new Source([Fault]);
        assert d.events[0].Fault?;
      case Some(c) =>
        d := new Source(if c == [] then [] else [Chunk(c)]);
        assert Content(d.events) == c;
    }
  }

  /** Take at most `max + 1` bytes from a decompressing reader: all of its output if that is within
      the cap, and otherwise just enough to see that it is not. */
  method Inflate(p: Prims, payload: Bytes, d: Source, max: nat) returns (r: Option<Bytes>)
    requires d.Valid() && Decodes(p, payload, d.events)
    modifies d
    ensures r.Some? ==> |r.value| <= max + 1 && Content(old(d.events)) == r.value + Content(d.events)
    ensures p.unzip(payload).Some? ==>
              r == Some(p.unzip(payload).value[..Min(max + 1, |p.unzip(payload).value|)])
    ensures r.Some? && |r.value| <= max ==> r == p.unzip(payload)
  {
    ghost var es, whole := d.events, Content(d.events);
    NoFaultWithin(es, max + 1);
    var b, _ := ReadLimited(d, max + 1, 4 * |payload|);
    r := b;
    if b.Some? {
      SkipFaultFree(es, max + 1);
      assert whole[..|b.value|] == b.value;
      assert whole[..|whole|] == whole;
    }
  }

  /** The next record can be read: it is complete, within the cap, and no fault lies in it. */
  ghost predicate Readable(es: seq<Event>, max: nat) {
    var s := Content(es);
    |s| >= 36 && Payload(s, 32, Some(max)).Some? && !FaultWithin(es, 36 + |Payload(s, 32, Some(max)).value|)
  }

  /** The id, length and payload of the next record of a stream: `None` at a clean end. */
  method NextRecord(p: Prims, src: Source, max: nat) returns (r: Result<Option<(Id, Bytes)>>)
    requires src.Valid()
    modifies src
    ensures src.Valid()
    ensures r == Err(IoError) <==> BrokenWithin(old(src.events), 32)
    ensures r == Ok(None) <==> !BrokenWithin(old(src.events), 32) && Content(old(src.events)) == []
    ensures r.Err? && r.error != IoError ==>
              r.error == PackCorrupt && Content(old(src.events)) != [] && !Readable(old(src.events), max)
    ensures r.Ok? && r.value.Some? ==>
              var s := Content(old(src.events));
              Readable(old(src.events), max) && r.value.value == (s[..32], Payload(s, 32, Some(max)).value)
              && src.events == Skip(old(src.events), 36 + |r.value.value.1|)
  {
    ghost var es, s := src.events, Content(src.events);
    var id := ReadUpTo(src, 32);
    if id.None? { return Err(IoError); }
    if |id.value| == 0 { return Ok(None); }
    if |id.value| != 32 { return Err(PackCorrupt); }
    assert s[..32] == id.value && s[32..] == Content(src.events);
    UnbrokenFaultless(es, 32);
    AfterId(es, max);
    var payload := ReadPayload(src, max);
    if payload.None? { return Err(PackCorrupt); }
    SkipSkip(es, 32, 4 + |payload.value|);
    r := Ok(Some((id.value, payload.value)));
  }

  /** A length and as many bytes can be read: they are there, within the cap, and no fault lies in them. */
  ghost predicate PayloadReadable(es: seq<Event>, max: nat) {
    var s := Content(es);
    Payload(s, 0, Some(max)).Some? && !FaultWithin(es, 4 + |Payload(s, 0, Some(max)).value|)
  }

  method ReadPayload(src: Source, max: nat) returns (r: Option<Bytes>)
    requires src.Valid()
    modifies src
    ensures src.Valid()
    ensures r.Some? <==> PayloadReadable(old(src.events), max)
    ensures r.Some? ==> r == Payload(Content(old(src.events)), 0, Some(max))
    ensures r.Some? ==> src.events == Skip(old(src.events), 4 + |r.value|)
  {
    ghost var es, s := src.events, Content(src.events);
    var len := ReadExact(src, 4);
    if len.None? {
      if Payload(s, 0, Some(max)).Some? { FaultSplits(es, 4, |Payload(s, 0, Some(max)).value|); }
      return None;
    }
    assert s[0..4] == len.value && s[4..] == Content(src.events);
    var n := FromLittleEndian(len.value);
    if n > max { return None; }
    FaultSplits(es, 4, n);
    SkipSkip(es, 4, n);
    r := ReadExact(src, n);
    if r.Some? { assert s[4..4 + n] == r.value; }
  }

  /** What follows the id decides whether the record can be read. */
  lemma {:induction false} AfterId(es: seq<Event>, max: nat)
    requires |Content(es)| >= 32 && !FaultWithin(es, 32)
    ensures Readable(es, max) <==> PayloadReadable(Skip(es, 32), max)
    ensures Payload(Content(es), 32, Some(max)) == Payload(Content(Skip(es, 32)), 0, Some(max))
  {
    var s := Content(es);
    SkipContent(es, 32);
    PayloadAfter(s, max);
    if Payload(s, 32, Some(max)).Some? { FaultSplits(es, 32, 4 + |Payload(s, 32, Some(max)).value|); }
  }

  lemma PayloadAfter(s: Bytes, max: nat)
    requires |s| >= 32
    ensures Payload(s, 32, Some(max)) == Payload(s[32..], 0, Some(max))
  {
    if |s| >= 36 {
      SliceSlice(s, 32, 0, 4);
      var n := FromLittleEndian(s[32..36]);
      if 36 + n <= |s| { SliceSlice(s, 32, 4, 4 + n); }
    }
  }

  lemma {:induction false} UnbrokenFaultless(es: seq<Event>, limit: nat)
    ensures FaultWithin(es, limit) ==> BrokenWithin(es, limit)
    decreases |es|
  {
    if es != [] && limit > 0 && es[0].Chunk? { UnbrokenFaultless(es[1..], limit - Min(|es[0].bytes|, limit)); }
  }

  // ---- whole streams ---------------------------------------------------------------

  /** The records of a stream: as those of its bytes, up to the first that is disturbed. An
      interruption disturbs the reading of an id, a fault the reading of any part. */
  ghost function StreamRecords(p: Prims, es: seq<Event>, max: nat): Scan
    decreases |Content(es)|
  {
    var s := Content(es);
    if BrokenWithin(es, 32) then Scan([], Some(IoError))
    else if s == [] then Scan([], None)
    else if !Readable(es, max) then Scan([], Some(PackCorrupt))
    else
      var payload := Payload(s, 32, Some(max)).value;
      match Unpack(p, payload, s[..32], Some(max), PackCorrupt)
      case Err(e) => Scan([], Some(e))
      case Ok(o) =>
        SkipContent(es, 36 + |payload|);
        var rest := StreamRecords(p, Skip(es, 36 + |payload|), max);
        Scan([Loaded(s[..32], o)] + rest.delivered, rest.failure)
  }

  ghost function StreamScan(p: Prims, es: seq<Event>, max: nat): Scan {
    if !FaultWithin(es, 8) && HeaderOk(Content(es)) then StreamRecords(p, Skip(es, 8), max)
    else Scan([], Some(PackCorrupt))
  }

  /** One more record of a stream. */
  lemma {:induction false} StreamStep(p: Prims, out: seq<Loaded>, es: seq<Event>, max: nat)
    ensures BrokenWithin(es, 32) ==> Extend(out, StreamRecords(p, es, max)) == Scan(out, Some(IoError))
    ensures !BrokenWithin(es, 32) && Content(es) == [] ==> Extend(out, StreamRecords(p, es, max)) == Scan(out, None)
    ensures !BrokenWithin(es, 32) && Content(es) != [] && !Readable(es, max) ==>
              Extend(out, StreamRecords(p, es, max)) == Scan(out, Some(PackCorrupt))
    ensures !BrokenWithin(es, 32) && Readable(es, max) ==>
              var s := Content(es);
              var payload := Payload(s, 32, Some(max)).value;
              match Unpack(p, payload, s[..32], Some(max), PackCorrupt)
              case Err(e) => Extend(out, StreamRecords(p, es, max)) == Scan(out, Some(e))
              case Ok(o) =>
                Extend(out, StreamRecords(p, es, max)) ==
                Extend(out + [Loaded(s[..32], o)], StreamRecords(p, Skip(es, 36 + |payload|), max))
  {
    assert out + [] == out;
    if !BrokenWithin(es, 32) && Readable(es, max) {
      var s := Content(es);
      var payload := Payload(s, 32, Some(max)).value;
      match Unpack(p, payload, s[..32], Some(max), PackCorrupt)
      case Err(e) =>
      case Ok(o) =>
        var rest := StreamRecords(p, Skip(es, 36 + |payload|), max).delivered;
        assert out + [Loaded(s[..32], o)] + rest == out + ([Loaded(s[..32], o)] + rest);
    }
  }

  /** On a source without faults and interruptions: the records of its bytes. On any source: a prefix of
      them, and all of them without any fault if it succeeds. */
  lemma {:induction false} StreamRecordsLaw(p: Prims, es: seq<Event>, max: nat)
    requires EventsOk(es)
    ensures Clean(es) ==> StreamRecords(p, es, max) == ScanRecords(p, Content(es), Some(max))
    ensures StreamRecords(p, es, max).delivered <= ScanRecords(p, Content(es), Some(max)).delivered
    ensures StreamRecords(p, es, max).failure.None? ==>
              StreamRecords(p, es, max) == ScanRecords(p, Content(es), Some(max)) && FaultFree(es)
    decreases |Content(es)|
  {
    CleanUnbroken(es, 32);
    if !BrokenWithin(es, 32) && Readable(es, max) {
      var s := Content(es);
      var payload := Payload(s, 32, Some(max)).value;
      var k := 36 + |payload|;
      SkipContent(es, k);
      StreamRecordsLaw(p, Skip(es, k), max);
      if Clean(es) { SkipClean(es, k); }
      SkipFaultFree(es, k);
    } else if Clean(es) && Content(es) != [] {
      CleanUnreadable(es, max);
    }
  }

  lemma {:induction false} CleanUnreadable(es: seq<Event>, max: nat)
    requires Clean(es) && !Readable(es, max)
    ensures |Content(es)| < 36 || Payload(Content(es), 32, Some(max)).None?
  {
    if |Content(es)| >= 36 && Payload(Content(es), 32, Some(max)).Some? {
      CleanHasNoFault(es, 36 + |Payload(Content(es), 32, Some(max)).value|);
    }
  }

  lemma {:induction false} StreamScanLaw(p: Prims, es: seq<Event>, max: nat)
    requires EventsOk(es)
    ensures Clean(es) ==> StreamScan(p, es, max) == ScanPack(p, Content(es), Some(max))
    ensures StreamScan(p, es, max).delivered <= ScanPack(p, Content(es), Some(max)).delivered
    ensures StreamScan(p, es, max).failure.None? ==>
              StreamScan(p, es, max) == ScanPack(p, Content(es), Some(max)) && FaultFree(es)
  {
    CleanHasNoFault(es, 8);
    if !FaultWithin(es, 8) && HeaderOk(Content(es)) {
      SkipContent(es, 8);
      StreamRecordsLaw(p, Skip(es, 8), max);
      if Clean(es) { SkipClean(es, 8); }
      SkipFaultFree(es, 8);
    }
  }

  // ---- the callback ----------------------------------------------------------------

  /** A scan whose callback has accepted `k` objects: it stops at the first one refused. The
      callback's answer may depend on everything it was given so far. */
  function Called(f: seq<Loaded> -> Option<Error>, s: Scan, k: nat): Scan
    requires k <= |s.delivered|
    decreases |s.delivered| - k
  {
    if k == |s.delivered| then s
    else if f(s.delivered[..k + 1]).Some? then Scan(s.delivered[..k + 1], f(s.delivered[..k + 1]))
    else Called(f, s, k + 1)
  }

  /** A callback that accepts everything changes nothing. */
  lemma {:induction false} AcceptingCallback(f: seq<Loaded> -> Option<Error>, s: Scan, k: nat)
    requires k <= |s.delivered| && forall ls :: f(ls) == None
    ensures Called(f, s, k) == s
    decreases |s.delivered| - k
  {
    if k < |s.delivered| { AcceptingCallback(f, s, k + 1); }
  }

  lemma {:induction false} CalledPrefix(f: seq<Loaded> -> Option<Error>, s: Scan, k: nat)
    requires k <= |s.delivered|
    ensures s.delivered[..k] <= Called(f, s, k).delivered <= s.delivered
    decreases |s.delivered| - k
  {
    if k < |s.delivered| && f(s.delivered[..k + 1]).None? { CalledPrefix(f, s, k + 1); }
  }

  /** Decompress a record under the cap, verify and decode it. */
  method OpenRecord(p: Prims, id: Id, payload: Bytes, max: nat) returns (r: Result<Object>)
    ensures r == Unpack(p, payload, id, Some(max), PackCorrupt)
    ensures r.Ok? ==>
              && p.unzip(payload).Some? && p.hash(p.unzip(payload).value) == id
              && p.decode(p.unzip(payload).value) == Some(r.value)
    ensures p.unzip(payload).Some? && p.hash(p.unzip(payload).value) != id ==> r == Err(PackCorrupt)
  {
    var d := OpenDecoder(p, payload);
    var canonical := Inflate(p, payload, d, max);
    if canonical.None? { return Err(PackCorrupt); }
    if |canonical.value| > max { return Err(PackCorrupt); }
    if p.hash(canonical.value) != id { return Err(PackCorrupt); }
    var o := p.decode(canonical.value);
    if o.None? { return Err(MalformedObject); }
    r := Ok(o.value);
  }

  lemma HeaderRead(pack: Bytes, header: Bytes)
    requires |header| == 8 && header <= pack
    ensures HeaderOk(pack) <==> header[..4] == PACK_MAGIC && FromLittleEndian(header[4..8]) == FORMAT_VERSION
  {
    assert pack[..8] == header;
    assert pack[..4] == header[..4] && pack[4..8] == header[4..8];
  }

  /** Stream a pack under a cap, handing each verified object to the callback. */
  method StreamPack(p: Prims, src: Source, max: nat, f: seq<Loaded> -> Option<Error>) returns (r: Scan)
    requires src.Valid()
    modifies src
    ensures r == Called(f, StreamScan(p, old(src.events), max), 0)
  {
    ghost var whole := Content(src.events);
    var header := ReadExact(src, 8);
    if header.None? { return Scan([], Some(PackCorrupt)); }
    HeaderRead(whole, header.value);
    if header.value[..4] != PACK_MAGIC { return Scan([], Some(PackCorrupt)); }
    if FromLittleEndian(header.value[4..8]) != FORMAT_VERSION { return Scan([], Some(PackCorrupt)); }
    r := StreamBody(p, src, max, f);
  }

  method StreamBody(p: Prims, src: Source, max: nat, f: seq<Loaded> -> Option<Error>) returns (r: Scan)
    requires src.Valid()
    modifies src
    ensures r == Called(f, StreamRecords(p, old(src.events), max), 0)
  {
    ghost var all := StreamRecords(p, src.events, max);
    var out: seq<Loaded> := [];
    ExtendNothing(all);
    while true
      invariant src.Valid()
      invariant Extend(out, StreamRecords(p, src.events, max)) == all
      invariant Called(f, all, |out|) == Called(f, all, 0)
      decreases |Content(src.events)|
    {
      ghost var now := src.events;
      StreamStep(p, out, now, max);
      var rec := NextRecord(p, src, max);
      if rec.Err? { return Scan(out, Some(rec.error)); }
      if rec.value.None? { return Scan(out, None); }
      var (id, payload) := rec.value.value;
      SkipContent(now, 36 + |payload|);
      var o := OpenRecord(p, id, payload, max);
      if o.Err? { return Scan(out, Some(o.error)); }
      out := out + [Loaded(id, o.value)];
      assert all.delivered[..|out|] == out;
      if f(out).Some? { return Scan(out, f(out)); }
    }
  }
}
