/** Reading a claimed number of bytes from an untrusted source: the buffer follows the bytes
    that arrive, and growing it stays cheap. */
module Intake {
  import opened Octets

  const READ_STEP := 8 * 1024 * 1024
  const FIRST_FLOOR := 64 * 1024

  function Min(a: nat, b: nat): nat { if a < b then a else b }
  function Max(a: nat, b: nat): nat { if a < b then b else a }
  function Clamp(x: nat, lo: nat, hi: nat): nat { Min(Max(x, lo), hi) }

  /** The next growth step once `filled` bytes are in hand. */
  function NextStep(filled: nat): nat {
    if filled < READ_STEP then Clamp(filled, FIRST_FLOOR, READ_STEP) else Max(READ_STEP, filled / 8)
  }

  /** How far a buffer holding `filled` received bytes may run ahead of them. */
  function Allowance(filled: nat): nat { Max(READ_STEP, filled / 8) }

  /** Geometric from 64 KiB to 8 MiB, then 8 MiB, then an eighth of what is in hand. */
  lemma NextStepIs(filled: nat)
    ensures filled <= 65_536 ==> NextStep(filled) == 65_536
    ensures 65_536 <= filled <= 8_388_608 ==> NextStep(filled) == filled
    ensures 8_388_608 <= filled <= 67_108_864 ==> NextStep(filled) == 8_388_608
    ensures 67_108_864 <= filled ==> NextStep(filled) == filled / 8
  {
  }

  // ---- the cost of growing -----------------------------------------------------

  /** A reallocation: `before` bytes in hand (and recopied), `after` bytes of buffer. */
  datatype Growth = Growth(before: nat, after: nat)

  function Recopied(gs: seq<Growth>): nat {
    if gs == [] then 0 else Recopied(gs[..|gs| - 1]) + gs[|gs| - 1].before
  }

  /** The buffer runs ahead of the bytes in hand by no more than the allowance. */
  predicate Modest(g: Growth) { g.before < g.after <= g.before + Allowance(g.before) }

  predicate FullStep(g: Growth) { g.after == g.before + NextStep(g.before) }

  /** Growth happens only on a full buffer, by the full step except when the limit cuts it. */
  ghost predicate Chain(gs: seq<Growth>) {
    && (gs != [] ==> gs[0].before == 0)
    && (forall i {:trigger Modest(gs[i])} :: 0 <= i < |gs| ==> Modest(gs[i]))
    && (forall i, j :: 0 <= i && j == i + 1 && j < |gs| ==> gs[j].before == gs[i].after)
    && (forall i {:trigger FullStep(gs[i])} :: 0 < i < |gs| - 1 ==> FullStep(gs[i]))
  }

  /** All growths together recopy at most ten times the bytes in hand at the last one. */
  lemma {:induction false} RecopyLinear(gs: seq<Growth>)
    requires Chain(gs) && gs != []
    ensures Recopied(gs) <= 10 * gs[|gs| - 1].before
  {
    if |gs| > 1 {
      var front := gs[..|gs| - 1];
      RecopyLinear(front);
      var f := front[|front| - 1];
      assert gs[|gs| - 1].before == gs[|gs| - 2].after == f.after;
      assert |gs| > 2 ==> FullStep(gs[|gs| - 2]) && NextStep(f.before) * 9 >= f.before;
    }
  }

  /** A buffer of `len` bytes, `filled` of them received, reached by the growths `gs`. */
  ghost predicate Grown(gs: seq<Growth>, len: nat, filled: nat, limit: nat) {
    && Chain(gs) && filled <= len <= limit && len - filled <= Allowance(filled)
    && (gs == [] ==> len == 0)
    && (gs != [] ==> gs[|gs| - 1].after == len && gs[|gs| - 1].before <= filled)
    && (forall i {:trigger FullStep(gs[i])} :: 0 < i < |gs| && gs[i].after < limit ==> FullStep(gs[i]))
  }

  lemma StepFits(filled: nat, limit: nat, step: nat)
    requires filled < limit
    requires filled == 0 ==> 0 < step <= READ_STEP && step <= limit
    requires filled > 0 ==> step == Min(NextStep(filled), limit - filled)
    ensures 0 < step <= Allowance(filled) && filled + step <= limit
    ensures filled > 0 && filled + step < limit ==> step == NextStep(filled)
  {
  }

  lemma GrowStep(gs: seq<Growth>, filled: nat, limit: nat, step: nat)
    requires Grown(gs, filled, filled, limit) && filled < limit
    requires filled == 0 ==> 0 < step <= READ_STEP && step <= limit
    requires filled > 0 ==> step == Min(NextStep(filled), limit - filled)
    ensures Grown(gs + [Growth(filled, filled + step)], filled + step, filled, limit)
  {
    var hs := gs + [Growth(filled, filled + step)];
    StepFits(filled, limit, step);
    assert forall i :: 0 <= i < |gs| ==> hs[i] == gs[i];
    assert gs != [] ==> Modest(gs[|gs| - 1]);
  }

  lemma FillStep(gs: seq<Growth>, len: nat, filled: nat, more: nat, limit: nat)
    requires Grown(gs, len, filled, limit) && filled + more <= len
    ensures Grown(gs, len, filled + more, limit)
  {
  }

  lemma {:induction false} RecopyOf(gs: seq<Growth>, len: nat, received: nat, limit: nat)
    requires Grown(gs, len, received, limit)
    ensures Recopied(gs) <= 10 * received
  {
    if gs != [] { RecopyLinear(gs); }
  }

  // ---- sources -----------------------------------------------------------------

  /** What successive reads of a source meet. */
  datatype Event = Chunk(bytes: Bytes) | Interrupted | Fault

  ghost predicate EventsOk(es: seq<Event>) {
    forall i :: 0 <= i < |es| && es[i].Chunk? ==> es[i].bytes != []
  }

  function Content(es: seq<Event>): Bytes {
    if es == [] then []
    else (if es[0].Chunk? then es[0].bytes else []) + Content(es[1..])
  }

  /** A fault lies before the `limit`-th byte. */
  ghost predicate FaultWithin(es: seq<Event>, limit: nat) {
    es != [] && limit > 0 &&
    (es[0].Fault? || FaultWithin(es[1..], if es[0].Chunk? then limit - Min(|es[0].bytes|, limit) else limit))
  }

  ghost predicate Clean(es: seq<Event>) { forall i :: 0 <= i < |es| ==> es[i].Chunk? }

  ghost predicate FaultFree(es: seq<Event>) { forall i :: 0 <= i < |es| ==> !es[i].Fault? }

  /** A fault or an interruption lies before the `limit`-th byte. */
  ghost predicate BrokenWithin(es: seq<Event>, limit: nat) {
    es != [] && limit > 0 &&
    (!es[0].Chunk? || BrokenWithin(es[1..], limit - Min(|es[0].bytes|, limit)))
  }

  lemma {:induction false} NoFaultWithin(es: seq<Event>, limit: nat)
    ensures FaultFree(es) ==> !FaultWithin(es, limit)
    decreases |es|
  {
    if es != [] && limit > 0 && !es[0].Fault? {
      assert FaultFree(es) ==> FaultFree(es[1..]);
      NoFaultWithin(es[1..], if es[0].Chunk? then limit - Min(|es[0].bytes|, limit) else limit);
    }
  }

  /** What is left once `k` bytes are taken, with the interruptions met on the way. */
  function Skip(es: seq<Event>, k: nat): seq<Event> {
    if k == 0 || es == [] then es
    else if !es[0].Chunk? then Skip(es[1..], k)
    else if |es[0].bytes| <= k then Skip(es[1..], k - |es[0].bytes|)
    else [Chunk(es[0].bytes[k..])] + es[1..]
  }

  lemma {:induction false} SkipOk(es: seq<Event>, k: nat)
    requires EventsOk(es)
    ensures EventsOk(Skip(es, k))
    decreases |es|
  {
    if k > 0 && es != [] {
      if !es[0].Chunk? {
        SkipOk(es[1..], k);
      } else if |es[0].bytes| <= k {
        SkipOk(es[1..], k - |es[0].bytes|);
      }
    }
  }

  lemma {:induction false} SkipContent(es: seq<Event>, k: nat)
    ensures EventsOk(es) ==> EventsOk(Skip(es, k))
    ensures Content(Skip(es, k)) == Content(es)[Min(k, |Content(es)|)..]
    decreases |es|
  {
    if EventsOk(es) { SkipOk(es, k); }
    if k > 0 && es != [] {
      var rest := Content(es[1..]);
      if !es[0].Chunk? {
        SkipContent(es[1..], k);
        assert [] + rest == rest;
      } else if |es[0].bytes| <= k {
        SkipContent(es[1..], k - |es[0].bytes|);
        DropPast(es[0].bytes, rest, k);
      } else {
        CutContent(es, k);
        DropWithin(es[0].bytes, rest, k);
      }
    }
  }

  lemma {:induction false} CutContent(es: seq<Event>, k: nat)
    requires es != [] && es[0].Chunk? && 0 < k < |es[0].bytes|
    ensures Content(Skip(es, k)) == es[0].bytes[k..] + Content(es[1..])
  {
    assert Skip(es, k)[1..] == es[1..];
  }

  lemma DropPast(b: Bytes, c: Bytes, k: nat)
    requires |b| <= k
    ensures (b + c)[Min(k, |b + c|)..] == c[Min(k - |b|, |c|)..]
  {
  }

  lemma DropWithin(b: Bytes, c: Bytes, k: nat)
    requires k <= |b|
    ensures (b + c)[Min(k, |b + c|)..] == b[k..] + c
  {
  }

  /** A fault before `k + m` bytes is before `k`, or before `m` more. */
  lemma {:induction false} FaultSplits(es: seq<Event>, k: nat, m: nat)
    ensures FaultWithin(es, k + m) <==> FaultWithin(es, k) || FaultWithin(Skip(es, k), m)
    decreases |es|
  {
    if k > 0 && es != [] && !es[0].Fault? {
      if !es[0].Chunk? {
        FaultSplits(es[1..], k, m);
      } else if |es[0].bytes| <= k {
        FaultSplits(es[1..], k - |es[0].bytes|, m);
      } else {
        assert Skip(es, k)[1..] == es[1..];
      }
    }
  }

  lemma {:induction false} SkipSkip(es: seq<Event>, k: nat, m: nat)
    ensures Skip(Skip(es, k), m) == Skip(es, k + m)
    decreases |es|
  {
    if k > 0 && es != [] {
      if !es[0].Chunk? {
        SkipSkip(es[1..], k, m);
      } else if |es[0].bytes| <= k {
        SkipSkip(es[1..], k - |es[0].bytes|, m);
      } else {
        assert Skip(es, k)[1..] == es[1..];
        assert es[0].bytes[k..][Min(m, |es[0].bytes| - k)..] == es[0].bytes[Min(k + m, |es[0].bytes|)..];
      }
    }
  }

  /** Taking bytes from a stream without faults or interruptions leaves one. */
  lemma {:induction false} SkipClean(es: seq<Event>, k: nat)
    requires Clean(es)
    ensures Clean(Skip(es, k))
    decreases |es|
  {
    if k > 0 && es != [] && |es[0].bytes| <= k { SkipClean(es[1..], k - |es[0].bytes|); }
  }

  /** Where no fault is met, what is left has those there are. */
  lemma {:induction false} SkipFaultFree(es: seq<Event>, k: nat)
    requires !FaultWithin(es, k)
    ensures FaultFree(es) <==> FaultFree(Skip(es, k))
    decreases |es|
  {
    if k > 0 && es != [] {
      assert FaultFree(es) <==> FaultFree(es[1..]) by { FaultFreeTail(es); }
      if !es[0].Chunk? {
        SkipFaultFree(es[1..], k);
      } else if |es[0].bytes| <= k {
        SkipFaultFree(es[1..], k - |es[0].bytes|);
      } else {
        assert Skip(es, k)[1..] == es[1..];
        FaultFreeTail(Skip(es, k));
      }
    }
  }

  lemma FaultFreeTail(es: seq<Event>)
    requires es != [] && !es[0].Fault?
    ensures FaultFree(es) <==> FaultFree(es[1..])
  {
    forall i | 0 < i < |es| ensures es[i] == es[1..][i - 1] { }
    if FaultFree(es[1..]) {
      forall i | 0 <= i < |es| ensures !es[i].Fault? { if i > 0 { assert es[i] == es[1..][i - 1]; } }
    }
  }

  lemma {:induction false} CleanHasNoFault(es: seq<Event>, limit: nat)
    ensures Clean(es) ==> !FaultWithin(es, limit)
  {
    if es != [] && limit > 0 && es[0].Chunk? { CleanHasNoFault(es[1..], limit - Min(|es[0].bytes|, limit)); }
  }

  datatype ReadResult = Got(bytes: Bytes) | Retry | Failed

  class Source {
    var events: seq<Event>

    constructor (es: seq<Event>)
      ensures events == es
    {
      events := es;
    }

    ghost predicate Valid()
      reads this
    {
      EventsOk(events)
    }

    /** One read into a buffer of `room` bytes. */
    method Read(room: nat) returns (r: ReadResult)
      requires Valid() && room > 0
      modifies this
      ensures Valid() && (r, events) == ReadStep(old(events), room)
    {
      var (got, rest) := ReadStep(events, room);
      ReadFacts(events, room, 0, got, rest);
      r, events := got, rest;
    }
  }

  /** What one read returns and leaves; `Got([])` is the end of the stream. */
  function ReadStep(es: seq<Event>, room: nat): (ReadResult, seq<Event>) {
    if es == [] then (Got([]), [])
    else match es[0]
      case Interrupted => (Retry, es[1..])
      case Fault => (Failed, es[1..])
      case Chunk(b) =>
        if |b| <= room then (Got(b), es[1..])
        else (Got(b[..room]), [Chunk(b[room..])] + es[1..])
  }

  lemma ReadFacts(es: seq<Event>, room: nat, limit: nat, r: ReadResult, rest: seq<Event>)
    requires EventsOk(es) && room > 0 && (r, rest) == ReadStep(es, room)
    ensures EventsOk(rest)
    ensures r.Got? ==> |r.bytes| <= room && (r.bytes == [] <==> es == []) && Content(es) == r.bytes + Content(rest)
    ensures r.Got? && limit >= |r.bytes| ==> (FaultWithin(es, limit) <==> FaultWithin(rest, limit - |r.bytes|))
    ensures r.Retry? ==> |rest| < |es| && Content(es) == Content(rest)
    ensures r.Retry? ==> (FaultWithin(es, limit) <==> FaultWithin(rest, limit))
    ensures r.Failed? && limit > 0 ==> FaultWithin(es, limit)
  {
    if es != [] && es[0].Chunk? && |es[0].bytes| > room {
      var b := es[0].bytes;
      assert b == b[..room] + b[room..];
      assert rest[1..] == es[1..];
    }
  }

  lemma ReadSkips(es: seq<Event>, room: nat, limit: nat, r: ReadResult, rest: seq<Event>)
    requires 0 < room <= limit && (r, rest) == ReadStep(es, room)
    ensures r.Got? ==> |r.bytes| <= limit && Skip(es, limit) == Skip(rest, limit - |r.bytes|)
    ensures r.Retry? ==> Skip(es, limit) == Skip(rest, limit)
  {
    if es != [] && es[0].Chunk? && |es[0].bytes| > room {
      var b := es[0].bytes;
      assert rest[1..] == es[1..];
      if room < limit <= |b| { assert b[room..][limit - room..] == b[limit..]; }
      if limit == |b| { assert b[room..][limit - room..] == []; }
    }
  }

  /** What one read says of an interruption or fault before the `limit`-th byte. */
  lemma ReadBroken(es: seq<Event>, room: nat, limit: nat, r: ReadResult, rest: seq<Event>)
    requires EventsOk(es) && 0 < room <= limit && (r, rest) == ReadStep(es, room)
    ensures r.Got? ==> |r.bytes| <= limit && (BrokenWithin(es, limit) <==> BrokenWithin(rest, limit - |r.bytes|))
    ensures !r.Got? ==> BrokenWithin(es, limit)
  {
    if es != [] && es[0].Chunk? && |es[0].bytes| > room {
      assert rest[1..] == es[1..];
    }
  }

  /** Reading has taken `got` from the events `es0`, leaving `es`, with `limit` bytes wanted. */
  ghost predicate Progress(es0: seq<Event>, es: seq<Event>, got: Bytes, limit: nat) {
    && EventsOk(es) && |got| <= limit && Content(es0) == got + Content(es)
    && (FaultWithin(es0, limit) <==> FaultWithin(es, limit - |got|))
    && Skip(es0, limit) == Skip(es, limit - |got|)
  }

  lemma ProgressStart(es: seq<Event>, limit: nat)
    requires EventsOk(es)
    ensures Progress(es, es, [], limit)
  {
    assert [] + Content(es) == Content(es);
  }

  lemma {:induction false} ProgressStep(es0: seq<Event>, es: seq<Event>, got: Bytes, room: nat, limit: nat,
                                        r: ReadResult, rest: seq<Event>)
    requires Progress(es0, es, got, limit) && 0 < room <= limit - |got| && (r, rest) == ReadStep(es, room)
    ensures r.Got? ==> |r.bytes| <= room && (r.bytes == [] <==> es == []) && Progress(es0, rest, got + r.bytes, limit)
    ensures r.Retry? ==> |rest| < |es| && Progress(es0, rest, got, limit)
    ensures r.Failed? ==> FaultWithin(es0, limit)
  {
    ReadFacts(es, room, limit - |got|, r, rest);
    ReadSkips(es, room, limit - |got|, r, rest);
    if r.Got? { assert got + (r.bytes + Content(rest)) == got + r.bytes + Content(rest); }
  }

  /** Where reading stops without a fault: the limit is reached or nothing is left. */
  lemma {:induction false} ProgressEnds(es0: seq<Event>, es: seq<Event>, have: Bytes, limit: nat)
    requires Progress(es0, es, have, limit) && (|have| == limit || es == [])
    ensures !FaultWithin(es0, limit) && |have| == Min(limit, |Content(es0)|) && es == Skip(es0, limit)
  {
  }

  // ---- the buffer ---------------------------------------------------------------

  /** `buf` with `b` stored at `at`. */
  function Place(buf: Bytes, at: nat, b: Bytes): (r: Bytes)
    requires at + |b| <= |buf|
    ensures |r| == |buf| && r[..at + |b|] == buf[..at] + b
  {
    buf[..at] + b + buf[at + |b|..]
  }

  /** The buffer of one read: `data` is as long as what has been allocated, its first `filled` bytes
      have been received. `growths` records every reallocation, `recopied` what they copied. */
  class Buffer {
    var data: Bytes
    var filled: nat
    ghost var growths: seq<Growth>
    ghost var recopied: nat

    /** Never ahead of the bytes received by more than the allowance, nor beyond `limit`; and the
        reallocations, each of a full buffer, lead from nothing to what is allocated. */
    ghost predicate Valid(limit: nat)
      reads this
    {
      && filled <= |data| <= limit && |data| <= filled + Allowance(filled)
      && Grown(growths, |data|, filled, limit) && recopied == Recopied(growths)
    }

    constructor ()
      ensures data == [] && filled == 0 && growths == [] && recopied == 0
    {
      data, filled, growths, recopied := [], 0, [], 0;
    }

    /** Reallocate a full buffer before the next read. */
    method Grow(limit: nat, firstStep: nat)
      requires Valid(limit) && filled == |data| < limit
      modifies this
      ensures Valid(limit) && filled == old(filled) < |data| && data[..filled] == old(data)
      ensures growths == old(growths) + [Growth(filled, |data|)] && recopied == old(recopied) + filled
    {
      var want := if filled == 0 then Clamp(firstStep, 1, READ_STEP) else NextStep(filled);
      var step := Min(want, limit - filled);
      GrowStep(growths, filled, limit, step);
      ghost var gs := growths;
      growths := growths + [Growth(filled, filled + step)];
      assert growths[..|growths| - 1] == gs;
      recopied := recopied + filled;
      data := data + seq(step, _ => 0);
    }

    /** One read into the free end. */
    method ReadFrom(src: Source, limit: nat, ghost es0: seq<Event>) returns (got: ReadResult)
      requires Valid(limit) && filled < |data| && src.Valid()
      requires Progress(es0, src.events, data[..filled], limit)
      modifies this, src
      ensures Valid(limit) && src.Valid() && growths == old(growths) && recopied == old(recopied)
      ensures filled == old(filled) + (if got.Got? then |got.bytes| else 0)
      ensures got.Failed? ==> FaultWithin(es0, limit)
      ensures got.Retry? ==> |src.events| < |old(src.events)|
      ensures got == Got([]) ==> src.events == []
      ensures !got.Failed? ==> Progress(es0, src.events, data[..filled], limit)
    {
      ghost var es, have := src.events, data[..filled];
      got := src.Read(|data| - filled);
      ProgressStep(es0, es, have, |data| - filled, limit, got, src.events);
      if got.Got? {
        FillStep(growths, |data|, filled, |got.bytes|, limit);
        data := Place(data, filled, got.bytes);
        filled := filled + |got.bytes|;
        assert data[..filled] == have + got.bytes;
      }
    }
  }

  /** Read until the end of the stream or `limit` bytes, whichever is first. The buffer it used is
      returned for its account: valid, so within the allowance, and recopied in linear total. */
  method ReadLimited(src: Source, limit: nat, firstStep: nat) returns (r: Option<Bytes>, buf: Buffer)
    requires src.Valid()
    modifies src
    ensures src.Valid() && fresh(buf) && buf.Valid(limit) && buf.recopied <= 10 * buf.filled
    ensures r.None? <==> FaultWithin(old(src.events), limit)
    ensures r.Some? ==> r.value == buf.data[..buf.filled]
    ensures r.Some? ==> Content(old(src.events)) == r.value + Content(src.events)
    ensures r.Some? ==> |r.value| == Min(limit, |Content(old(src.events))|)
    ensures r.Some? ==> src.events == Skip(old(src.events), limit)
    ensures r.Some? && |r.value| < limit ==> src.events == []
  {
    buf := new Buffer();
    var failed := false;
    ProgressStart(src.events, limit);
    assert buf.data[..buf.filled] == [];
    while buf.filled < limit
      invariant fresh(buf) && src.Valid() && !failed && buf.Valid(limit)
      invariant Progress(old(src.events), src.events, buf.data[..buf.filled], limit)
      decreases limit - buf.filled, |src.events|
    {
      if buf.filled == |buf.data| {
        assert buf.data[..buf.filled] == buf.data;
        buf.Grow(limit, firstStep);
      }
      var got := buf.ReadFrom(src, limit, old(src.events));
      if got.Failed? {
        failed := true;
        break;
      }
      if got == Got([]) { break; }
    }
    RecopyOf(buf.growths, |buf.data|, buf.filled, limit);
    if !failed { ProgressEnds(old(src.events), src.events, buf.data[..buf.filled], limit); }
    r := if failed then None else Some(buf.data[..buf.filled]);
  }

  /** Read exactly `len` bytes, or fail. */
  method ReadExact(src: Source, len: nat) returns (r: Option<Bytes>)
    requires src.Valid()
    modifies src
    ensures src.Valid()
    ensures r.Some? <==> !FaultWithin(old(src.events), len) && len <= |Content(old(src.events))|
    ensures r.Some? ==> |r.value| == len && Content(old(src.events)) == r.value + Content(src.events)
    ensures r.Some? ==> src.events == Skip(old(src.events), len)
  {
    var b, _ := ReadLimited(src, len, len);
    r := if b.Some? && |b.value| < len then None else b;
  }
}
