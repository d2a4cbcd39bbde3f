/** What the stream reader makes of any source: where each delivered object lies, what was checked of
    it, that it was read undisturbed, and exactly why a read stops. */
module PackStreams {
  import opened Octets
  import opened Objects
  import opened Pack
  import opened PackAccount
  import opened PackIO
  import opened Intake

  /** The record between the offsets is verified, and nothing disturbs the reading of it. */
  ghost predicate Streams(p: Prims, es: seq<Event>, at: nat, end: nat, l: Loaded, max: nat) {
    && Delivers(p, Content(es), at, end, l, Some(max))
    && !BrokenWithin(Skip(es, at), 32) && !FaultWithin(Skip(es, at), end - at)
  }

  /** A verified record lies at `at`, and no fault in it. */
  ghost predicate Undisturbed(p: Prims, es: seq<Event>, at: nat, n: nat, max: nat, c: Bytes) {
    Verified(p, Content(es), at, n, Some(max), c) && !FaultWithin(Skip(es, at), 36 + n)
  }

  /** Why a stream stops: an id cut by a fault or an interruption; the end; undisturbed verified bytes that
      are no object; or no undisturbed verified record. */
  ghost predicate StreamStops(p: Prims, es: seq<Event>, at: nat, max: nat, failure: Option<Error>) {
    && at <= |Content(es)|
    && (failure.None? || failure in [Some(IoError), Some(PackCorrupt), Some(MalformedObject)])
    && (failure == Some(IoError) <==> BrokenWithin(Skip(es, at), 32))
    && (failure.None? <==> !BrokenWithin(Skip(es, at), 32) && at == |Content(es)|)
    && (failure == Some(PackCorrupt) <==>
          !BrokenWithin(Skip(es, at), 32) && at < |Content(es)| && !exists n, c :: Undisturbed(p, es, at, n, max, c))
    && (failure == Some(MalformedObject) ==>
          exists n, c :: Undisturbed(p, es, at, n, max, c) && p.decode(c).None?)
  }

  ghost predicate StreamAccount(p: Prims, es: seq<Event>, offs: seq<nat>, max: nat, r: Scan) {
    && |offs| == |r.delivered| + 1
    && (forall i {:trigger Streams(p, es, offs[i], offs[i + 1], r.delivered[i], max)} :: 0 <= i < |r.delivered| ==>
          Streams(p, es, offs[i], offs[i + 1], r.delivered[i], max))
    && StreamStops(p, es, offs[|r.delivered|], max, r.failure)
  }

  /** The payload found in the rest of the stream is the one at the offset. */
  lemma {:induction false} RestPayload(es: seq<Event>, at: nat, max: nat)
    requires at + 32 <= |Content(es)|
    ensures Content(Skip(es, at)) == Content(es)[at..]
    ensures Payload(Content(Skip(es, at)), 32, Some(max)) == Payload(Content(es), at + 32, Some(max))
  {
    SkipContent(es, at);
    PayloadShift(Content(es), at, Some(max));
  }

  lemma {:induction false} NotReadable(p: Prims, es: seq<Event>, at: nat, max: nat)
    requires at < |Content(es)| && !BrokenWithin(Skip(es, at), 32) && !Readable(Skip(es, at), max)
    ensures StreamStops(p, es, at, max, Some(PackCorrupt))
  {
    forall n, c ensures !Undisturbed(p, es, at, n, max, c) {
      if Verified(p, Content(es), at, n, Some(max), c) {
        RestPayload(es, at, max);
        PayloadIff(Content(es), at, Some(max), n);
      }
    }
  }

  lemma {:induction false} ReadableVerdict(p: Prims, es: seq<Event>, at: nat, max: nat, payload: Bytes, id: Id)
    requires at + 32 <= |Content(es)| && !BrokenWithin(Skip(es, at), 32)
    requires Payload(Content(es), at + 32, Some(max)) == Some(payload) && id == Content(es)[at..at + 32]
    requires !FaultWithin(Skip(es, at), 36 + |payload|)
    ensures match Unpack(p, payload, id, Some(max), PackCorrupt)
      case Ok(o) => Streams(p, es, at, at + 36 + |payload|, Loaded(id, o), max)
      case Err(e) => StreamStops(p, es, at, max, Some(e))
  {
    var s := Content(es);
    RecordVerdict(p, s, at, Some(max));
    if Unpack(p, payload, id, Some(max), PackCorrupt).Err? {
      forall n, c | Verified(p, s, at, n, Some(max), c) ensures Undisturbed(p, es, at, n, max, c) {
        PayloadIff(s, at, Some(max), n);
      }
    }
  }

  lemma {:induction false} RecordsUnfold(p: Prims, rest: seq<Event>, max: nat, payload: Bytes, id: Id)
    requires !BrokenWithin(rest, 32) && Readable(rest, max)
    requires Payload(Content(rest), 32, Some(max)) == Some(payload) && id == Content(rest)[..32]
    ensures match Unpack(p, payload, id, Some(max), PackCorrupt)
      case Ok(o) =>
        var r := StreamRecords(p, Skip(rest, 36 + |payload|), max);
        StreamRecords(p, rest, max) == Scan([Loaded(id, o)] + r.delivered, r.failure)
      case Err(e) => StreamRecords(p, rest, max) == Scan([], Some(e))
  {
  }

  lemma {:induction false} RestRecord(es: seq<Event>, at: nat, max: nat) returns (payload: Bytes, id: Id)
    requires at < |Content(es)| && Readable(Skip(es, at), max)
    ensures at + 36 + |payload| <= |Content(es)| && id == Content(es)[at..at + 32] == Content(Skip(es, at))[..32]
    ensures Payload(Content(Skip(es, at)), 32, Some(max)) == Some(payload)
    ensures Payload(Content(es), at + 32, Some(max)) == Some(payload)
    ensures !FaultWithin(Skip(es, at), 36 + |payload|)
    ensures Skip(Skip(es, at), 36 + |payload|) == Skip(es, at + 36 + |payload|)
  {
    SkipContent(es, at);
    RestPayload(es, at, max);
    payload, id := Payload(Content(es), at + 32, Some(max)).value, Content(es)[at..at + 32];
    assert Content(es)[at..][..32] == id;
    SkipSkip(es, at, 36 + |payload|);
  }

  /** From `at` on: the next object is delivered and the rest follows from `end`, or the stream stops. */
  ghost predicate Outcome(p: Prims, es: seq<Event>, at: nat, max: nat, l: Option<Loaded>, end: nat) {
    var r := StreamRecords(p, Skip(es, at), max);
    if l.None? then r.delivered == [] && StreamStops(p, es, at, max, r.failure)
    else
      && at < end <= |Content(es)| && Streams(p, es, at, end, l.value, max)
      && r == Preceded(l.value, StreamRecords(p, Skip(es, end), max))
  }

  lemma {:induction false} StopsHere(p: Prims, es: seq<Event>, at: nat, max: nat)
    requires at <= |Content(es)|
    requires BrokenWithin(Skip(es, at), 32) || at == |Content(es)| || !Readable(Skip(es, at), max)
    ensures Outcome(p, es, at, max, None, at)
  {
    SkipContent(es, at);
    if !BrokenWithin(Skip(es, at), 32) && at < |Content(es)| { NotReadable(p, es, at, max); }
  }

  lemma {:induction false} ReadOutcome(p: Prims, es: seq<Event>, at: nat, max: nat, payload: Bytes, id: Id)
    returns (l: Option<Loaded>)
    requires at + 36 + |payload| <= |Content(es)| && !BrokenWithin(Skip(es, at), 32) && Readable(Skip(es, at), max)
    requires id == Content(es)[at..at + 32] == Content(Skip(es, at))[..32]
    requires Payload(Content(Skip(es, at)), 32, Some(max)) == Some(payload)
    requires Payload(Content(es), at + 32, Some(max)) == Some(payload)
    requires !FaultWithin(Skip(es, at), 36 + |payload|)
    requires Skip(Skip(es, at), 36 + |payload|) == Skip(es, at + 36 + |payload|)
    ensures Outcome(p, es, at, max, l, at + 36 + |payload|)
  {
    ReadableVerdict(p, es, at, max, payload, id);
    RecordsUnfold(p, Skip(es, at), max, payload, id);
    match Unpack(p, payload, id, Some(max), PackCorrupt)
    case Ok(o) => l := Some(Loaded(id, o));
    case Err(e) => l := None;
  }

  lemma {:induction false} ReadsHere(p: Prims, es: seq<Event>, at: nat, max: nat) returns (l: Option<Loaded>, end: nat)
    requires at < |Content(es)| && !BrokenWithin(Skip(es, at), 32) && Readable(Skip(es, at), max)
    ensures Outcome(p, es, at, max, l, end)
  {
    var payload, id := RestRecord(es, at, max);
    l := ReadOutcome(p, es, at, max, payload, id);
    end := at + 36 + |payload|;
  }

  lemma {:induction false} NextOutcome(p: Prims, es: seq<Event>, at: nat, max: nat)
    returns (l: Option<Loaded>, end: nat)
    requires at <= |Content(es)|
    ensures Outcome(p, es, at, max, l, end)
  {
    if BrokenWithin(Skip(es, at), 32) || at == |Content(es)| || !Readable(Skip(es, at), max) {
      l, end := None, at;
      StopsHere(p, es, at, max);
    } else {
      l, end := ReadsHere(p, es, at, max);
    }
  }

  function Preceded(l: Loaded, r: Scan): Scan { Scan([l] + r.delivered, r.failure) }

  /** Whatever the source: what is streamed was verified record by record and read undisturbed, and the
      stream stops for the reason it gives. */
  lemma {:induction false} RecordsAccounted(p: Prims, es: seq<Event>, at: nat, max: nat) returns (offs: seq<nat>)
    requires at <= |Content(es)|
    ensures offs != [] && offs[0] == at && StreamAccount(p, es, offs, max, StreamRecords(p, Skip(es, at), max))
    decreases |Content(es)| - at
  {
    offs := [at];
    var l, end := NextOutcome(p, es, at, max);
    if l.Some? {
      var more := RecordsAccounted(p, es, end, max);
      OneMoreStreamed(p, es, at, more, max, StreamRecords(p, Skip(es, end), max), l.value);
      offs := offs + more;
    }
  }

  lemma {:induction false} OneMoreStreamed(p: Prims, es: seq<Event>, at: nat, offs: seq<nat>, max: nat, r: Scan,
                                           l: Loaded)
    requires offs != [] && StreamAccount(p, es, offs, max, r) && Streams(p, es, at, offs[0], l, max)
    ensures StreamAccount(p, es, [at] + offs, max, Preceded(l, r))
  {
    var all, ls := [at] + offs, [l] + r.delivered;
    forall i | 0 <= i < |ls| ensures Streams(p, es, all[i], all[i + 1], ls[i], max) {
      if i > 0 {
        var k := i - 1;
        assert Streams(p, es, offs[k], offs[k + 1], r.delivered[k], max);
      }
    }
  }

  /** The same of a whole stream: its first eight bytes are fixed and must come before any fault. */
  lemma {:induction false} StreamAccounted(p: Prims, es: seq<Event>, max: nat) returns (offs: seq<nat>)
    ensures [0x53, 0x43, 0x50, 0x4B, 1, 0, 0, 0] <= Content(es) && !FaultWithin(es, 8) ==>
      offs != [] && offs[0] == 8 && StreamAccount(p, es, offs, max, StreamScan(p, es, max))
    ensures !([0x53, 0x43, 0x50, 0x4B, 1, 0, 0, 0] <= Content(es)) || FaultWithin(es, 8) ==>
      StreamScan(p, es, max) == Scan([], Some(PackCorrupt))
  {
    HeaderIff(Content(es));
    offs := [];
    if HeaderOk(Content(es)) && !FaultWithin(es, 8) { offs := RecordsAccounted(p, es, 8, max); }
  }
}
