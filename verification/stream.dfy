/** One git transport: the child and its helpers, the supervisor, the stdout reader, the bounded
    channel and the client, in every interleaving. */
module TransportStream {
  import opened Octets

  // ---- the CGI head -------------------------------------------------------------------------

  const LF2: Bytes := [10, 10]
  const CRLF2: Bytes := [13, 10, 13, 10]
  const CHANNEL_ROOM := 4
  const HEAD_LIMIT := 16 * 1024

  /** Where `pat` first occurs in `s`. */
  function FirstAt(pat: Bytes, s: Bytes): (r: Option<nat>)
    requires pat != []
    ensures r.Some? ==> r.value + |pat| <= |s|
  {
    if |s| < |pat| then None
    else if s[..|pat|] == pat then Some(0)
    else match FirstAt(pat, s[1..])
      case None => None
      case Some(i) => Some(i + 1)
  }

  predicate OccursAt(pat: Bytes, s: Bytes, i: nat) { i + |pat| <= |s| && s[i..i + |pat|] == pat }

  /** It is an occurrence, no earlier one exists, and none at all when nothing is found. */
  lemma {:induction false} FirstAtSpec(pat: Bytes, s: Bytes, i: nat)
    requires pat != []
    ensures FirstAt(pat, s) == Some(i) ==> OccursAt(pat, s, i)
    ensures OccursAt(pat, s, i) ==> FirstAt(pat, s).Some? && FirstAt(pat, s).value <= i
  {
    if |s| >= |pat| && i > 0 {
      FirstAtSpec(pat, s[1..], i - 1);
      if i + |pat| <= |s| { assert s[1..][i - 1..i - 1 + |pat|] == s[i..i + |pat|]; }
    }
  }

  /** The length of a complete header block at the front of `s`: up to the first blank line,
      in either line-end style. */
  function HeadEnd(s: Bytes): (r: Option<nat>)
    ensures r.Some? ==> r.value <= |s|
  {
    match (FirstAt(LF2, s), FirstAt(CRLF2, s))
    case (None, None) => None
    case (Some(i), None) => Some(i + 2)
    case (None, Some(j)) => Some(j + 4)
    case (Some(i), Some(j)) => Some(if i + 2 <= j + 4 then i + 2 else j + 4)
  }

  /** A blank line ends at `e`: CR LF CR LF, or LF LF. */
  predicate BlankLineAt(s: Bytes, e: nat) {
    || (4 <= e <= |s| && s[e - 4] == 13 && s[e - 3] == 10 && s[e - 2] == 13 && s[e - 1] == 10)
    || (2 <= e <= |s| && s[e - 2] == 10 && s[e - 1] == 10)
  }

  /** The head is everything up to the end of the first blank line. */
  ghost predicate HeadIs(s: Bytes, e: nat) { BlankLineAt(s, e) && forall d: nat :: d < e ==> !BlankLineAt(s, d) }

  lemma BlankLineIff(s: Bytes, e: nat)
    ensures BlankLineAt(s, e) <==> (e >= 4 && OccursAt(CRLF2, s, e - 4)) || (e >= 2 && OccursAt(LF2, s, e - 2))
  {
    if 4 <= e <= |s| { assert s[e - 4..e] == [s[e - 4], s[e - 3], s[e - 2], s[e - 1]]; }
    if 2 <= e <= |s| { assert s[e - 2..e] == [s[e - 2], s[e - 1]]; }
  }

  /** The search finds exactly the end of the first blank line, and nothing only where there is none. */
  lemma {:induction false} HeadEndExact(s: Bytes, e: nat)
    ensures HeadEnd(s) == Some(e) <==> HeadIs(s, e)
  {
    HeadEndNone(s, e);
    if HeadEnd(s).Some? {
      var h := HeadEnd(s).value;
      HeadEndFound(s);
      forall d: nat | d < h ensures !BlankLineAt(s, d) { HeadEndFirst(s, d); }
    }
  }

  lemma {:induction false} HeadEndNone(s: Bytes, e: nat)
    ensures HeadEnd(s).None? ==> !BlankLineAt(s, e)
  {
    BlankLineIff(s, e);
    if e >= 4 { FirstAtSpec(CRLF2, s, e - 4); }
    if e >= 2 { FirstAtSpec(LF2, s, e - 2); }
  }

  lemma {:induction false} HeadEndFound(s: Bytes)
    requires HeadEnd(s).Some?
    ensures BlankLineAt(s, HeadEnd(s).value)
  {
    BlankLineIff(s, HeadEnd(s).value);
    if FirstAt(LF2, s).Some? { FirstAtSpec(LF2, s, FirstAt(LF2, s).value); }
    if FirstAt(CRLF2, s).Some? { FirstAtSpec(CRLF2, s, FirstAt(CRLF2, s).value); }
  }

  lemma {:induction false} HeadEndFirst(s: Bytes, d: nat)
    requires HeadEnd(s).Some? && d < HeadEnd(s).value
    ensures !BlankLineAt(s, d)
  {
    BlankLineIff(s, d);
    if d >= 4 { FirstAtSpec(CRLF2, s, d - 4); }
    if d >= 2 { FirstAtSpec(LF2, s, d - 2); }
  }

  /** How the output is cut into reads does not move the end of the head. */
  lemma HeadEndStable(s: Bytes, e: nat, more: Bytes)
    requires HeadIs(s, e)
    ensures HeadIs(s + more, e) && HeadEnd(s) == HeadEnd(s + more) == Some(e)
  {
    forall d: nat | d <= e ensures BlankLineAt(s + more, d) <==> BlankLineAt(s, d) { }
    HeadEndExact(s, e);
    HeadEndExact(s + more, e);
  }

  // ---- the state -------------------------------------------------------------------------------

  datatype Leader = Running | Exited(success: bool, unasked: bool)
  datatype Reason = LeftByItself | Cancelled | TimedOut | Lost
  datatype Supervisor = Watching | Ending(reason: Reason) | Killed(reason: Reason) | Reported | Vanished

  /** A channel item: bytes (empty bytes are the end marker) or an error. */
  datatype Item = Data(bytes: Bytes) | Failure

  datatype Reader =
    | ReadingHead
    | GotHead(rest: Bytes)       // to be announced
    | Streaming
    | Forwarding(item: Item, last: bool, cancels: bool) // a send in progress; `last` ends the reader
    | AwaitingVerdict
    | Finished

  datatype Client = Waiting | Polling | EndedClean | EndedError | Gone

  datatype System = System(
    leader: Leader, helpers: nat, signalled: bool, written: Bytes,
    supervisor: Supervisor, verdict: Option<bool>, cancel: bool,
    reader: Reader, taken: nat, headLen: nat,
    queue: seq<Item>, client: Client, received: Bytes)

  const Initial := System(Running, 0, false, [], Watching, None, false, ReadingHead, 0, 0, [], Waiting, [])

  /** Something still holds the write end of the pipe. */
  predicate PipeOpen(s: System) { s.leader.Running? || s.helpers > 0 }

  // ---- the steps -------------------------------------------------------------------------------

  datatype Action =
    // the child's process group
    | ChildWrites(bytes: Bytes)
    | ChildForks
    | HelperEnds
    | ChildExits(success: bool)
    // the supervisor
    | SeesExit
    | GivesUp(reason: Reason)      // cancelled, past the deadline, or unable to look
    | KillsGroup
    | Reports(waited: bool)
    | Vanishes                     // the supervisor is gone without a verdict
    // the reader
    | ReadsHead(n: nat, headOk: bool)
    | HeadCutShort                 // end of file or a read error before the head is complete
    | AnnouncesHead
    | ReadsBody(n: nat)
    | ReadsEof
    | ReadFails
    | Sends
    | SendFails                    // cancelled, stalled, or the client is gone
    | HearsVerdict
    // the client and the rest of the server
    | ClientPolls
    | ClientLeaves
    | CancelledFromOutside

  predicate Enabled(s: System, a: Action) {
    match a
    case ChildWrites(b) => PipeOpen(s)
    case ChildForks => PipeOpen(s)
    case HelperEnds => s.helpers > 0
    case ChildExits(_) => s.leader.Running?
    case SeesExit => s.supervisor.Watching? && s.leader.Exited?
    case GivesUp(r) =>
      && s.supervisor.Watching? && r != LeftByItself
      && (r == Cancelled ==> s.cancel)
    case KillsGroup => s.supervisor.Ending?
    case Reports(_) => s.supervisor.Killed? && s.leader.Exited?
    case Vanishes => s.supervisor.Watching?
    case ReadsHead(n, _) => s.reader.ReadingHead? && 0 < n && s.taken + n <= |s.written|
    case HeadCutShort => s.reader.ReadingHead?
    case AnnouncesHead => s.reader.GotHead?
    case ReadsBody(n) => s.reader.Streaming? && 0 < n && s.taken + n <= |s.written|
    case ReadsEof => s.reader.Streaming? && !PipeOpen(s) && s.taken == |s.written|
    case ReadFails => s.reader.Streaming?
    case Sends => s.reader.Forwarding? && |s.queue| < CHANNEL_ROOM && s.client.Polling?
    case SendFails => s.reader.Forwarding?
    case HearsVerdict => s.reader.AwaitingVerdict? && (s.verdict.Some? || s.supervisor.Vanished?)
    case ClientPolls => s.client.Polling? && (s.queue != [] || s.reader.Finished?)
    case ClientLeaves => s.client.Waiting? || s.client.Polling?
    case CancelledFromOutside => true
  }

  /** A bad head is answered with an error response. */
  function Refuse(s: System): System { if s.client.Waiting? then s.(client := EndedError) else s }

  function HeadStep(s: System, n: nat, headOk: bool): System
    requires s.taken + n <= |s.written|
  {
    var seen := s.written[..s.taken + n];
    match HeadEnd(seen)
    case Some(e) =>
      if headOk then s.(taken := s.taken + n, reader := GotHead(seen[e..]), headLen := e)
      else Refuse(s).(taken := s.taken + n, reader := Finished, cancel := true)
    case None =>
      if |seen| > HEAD_LIMIT then Refuse(s).(taken := s.taken + n, reader := Finished, cancel := true)
      else s.(taken := s.taken + n)
  }

  /** What polling the response body yields: the empty chunk is the clean end, and a channel that
      closes without it is an error. */
  function Poll(s: System): System {
    if s.queue == [] then s.(client := EndedError, cancel := true)
    else
      var rest := s.(queue := s.queue[1..]);
      match s.queue[0]
      case Data(b) =>
        if b == [] then rest.(client := EndedClean, cancel := true)
        else rest.(received := s.received + b)
      case Failure => rest.(client := EndedError, cancel := true)
  }

  function After(s: System, a: Action): System
    requires Enabled(s, a)
  {
    match a
    case ChildWrites(b) => s.(written := s.written + b)
    case ChildForks => s.(helpers := s.helpers + 1)
    case HelperEnds => s.(helpers := s.helpers - 1)
    case ChildExits(ok) => s.(leader := Exited(ok, !s.signalled))
    case SeesExit => s.(supervisor := Ending(LeftByItself))
    case GivesUp(r) => s.(supervisor := Ending(r), signalled := true)
    case KillsGroup => s.(supervisor := Killed(s.supervisor.reason), signalled := true)
    case Reports(waited) =>
      s.(supervisor := Reported, verdict := Some(s.supervisor.reason == LeftByItself && waited && s.leader.success))
    case Vanishes => s.(supervisor := Vanished)
    case ReadsHead(n, ok) => HeadStep(s, n, ok)
    case HeadCutShort => Refuse(s).(reader := Finished)
    case AnnouncesHead =>
      if s.client != Waiting then s.(reader := Finished, cancel := true)
      else s.(client := Polling,
              reader := if s.reader.rest == [] then Streaming else Forwarding(Data(s.reader.rest), false, false))
    case ReadsBody(n) =>
      s.(taken := s.taken + n, reader := Forwarding(Data(s.written[s.taken..s.taken + n]), false, false))
    case ReadsEof => s.(reader := AwaitingVerdict)
    case ReadFails => s.(reader := Forwarding(Failure, true, true))
    case Sends =>
      s.(queue := s.queue + [s.reader.item], reader := if s.reader.last then Finished else Streaming,
         cancel := s.cancel || s.reader.cancels)
    case SendFails => s.(reader := Finished, cancel := s.cancel || s.reader.cancels || !s.reader.last)
    case HearsVerdict =>
      s.(reader := Forwarding(if s.verdict == Some(true) then Data([]) else Failure, true, false))
    case ClientPolls => Poll(s)
    case ClientLeaves => s.(client := Gone, cancel := true)
    case CancelledFromOutside => s.(cancel := true)
  }

  // ---- the invariant ------------------------------------------------------------------------------

  function ChannelBytes(queue: seq<Item>): Bytes {
    if queue == [] then [] else (if queue[0].Data? then queue[0].bytes else []) + ChannelBytes(queue[1..])
  }

  lemma {:induction false} ChannelConcat(xs: seq<Item>, ys: seq<Item>)
    ensures ChannelBytes(xs + ys) == ChannelBytes(xs) + ChannelBytes(ys)
  {
    if xs == [] {
      assert xs + ys == ys;
    } else {
      assert (xs + ys)[1..] == xs[1..] + ys;
      ChannelConcat(xs[1..], ys);
    }
  }

  /** The bytes the reader has taken off the pipe but not yet put in the channel. */
  function InHand(r: Reader): Bytes {
    match r
    case GotHead(rest) => rest
    case Forwarding(Data(b), _, _) => b
    case _ => []
  }

  /** The child ended well, nothing can write any more, and all of it has been read. */
  ghost predicate Complete(s: System) {
    && s.leader == Exited(true, true) && !PipeOpen(s) && s.taken == |s.written| && s.verdict == Some(true)
  }

  ghost predicate SupervisorOk(s: System) {
    && (!s.signalled ==> s.supervisor.Watching? || s.supervisor.Vanished? || s.supervisor == Ending(LeftByItself))
    && ((s.supervisor == Ending(LeftByItself) || s.supervisor == Killed(LeftByItself)) ==>
          s.leader.Exited? && s.leader.unasked)
    && (s.supervisor.Watching? ==> !s.signalled)
    && (s.verdict == Some(true) ==> s.leader == Exited(true, true))
    && (s.verdict.Some? ==> s.supervisor.Reported?)
    && (!s.signalled && s.leader.Exited? ==> s.leader.unasked)
  }

  /** Past the head and not given up: every byte after the head is with the client, in the channel
      or in the reader's hand, in that order. */
  ghost predicate Flowing(s: System) {
    && s.headLen <= s.taken <= |s.written|
    && HeadEnd(s.written[..s.taken]) == Some(s.headLen)
    && s.received + ChannelBytes(s.queue) + InHand(s.reader) == s.written[s.headLen..s.taken]
  }

  ghost predicate EndMarked(s: System) {
    s.client.EndedClean? || Data([]) in s.queue
  }

  ghost predicate ReaderOk(s: System) {
    && s.taken <= |s.written|
    && (s.reader.ReadingHead? ==> HeadEnd(s.written[..s.taken]).None?)
    && (s.reader.ReadingHead? || s.reader.GotHead? ==> s.queue == [] && s.received == [])
    && (s.reader.GotHead? || s.reader.Streaming? || s.reader.Forwarding? || s.reader.AwaitingVerdict? ==> Flowing(s))
    && (s.reader.Forwarding? && s.reader.item == Data([]) ==> s.reader.last && Complete(s))
    && (s.reader.AwaitingVerdict? ==> !PipeOpen(s) && s.taken == |s.written|)
    && (s.reader.Forwarding? && s.reader.last && s.reader.item.Data? ==> s.reader.item == Data([]))
    && (s.reader.ReadingHead? || s.reader.GotHead? ==> s.client.Waiting? || s.client.Gone?)
  }

  /** An end marker is sent only when everything is complete, and it is the last item. */
  ghost predicate MarkOk(s: System) {
    && (EndMarked(s) ==> s.reader.Finished? && Complete(s) && Flowing(s))
    && (forall i :: 0 <= i < |s.queue| - 1 ==> s.queue[i] != Data([]))
    && (s.client.EndedClean? ==> s.queue == [])
  }

  ghost predicate Inv(s: System) { SupervisorOk(s) && ReaderOk(s) && MarkOk(s) }

  // ---- every step keeps it --------------------------------------------------------------------------

  /** The actions of the child's process group and of the supervisor. */
  predicate FarSide(a: Action) {
    || a.ChildWrites? || a.ChildForks? || a.HelperEnds? || a.ChildExits?
    || a.SeesExit? || a.GivesUp? || a.KillsGroup? || a.Reports? || a.Vanishes?
  }

  predicate SameFarSide(s: System, t: System) {
    t.leader == s.leader && t.signalled == s.signalled && t.supervisor == s.supervisor && t.verdict == s.verdict
  }

  lemma ReadingFrame(s: System, a: Action)
    requires Enabled(s, a) && (a.ReadsHead? || a.HeadCutShort? || a.AnnouncesHead? || a.ReadsBody? || a.ReadsEof?)
    ensures SameFarSide(s, After(s, a))
  {
  }

  lemma NearSideFrame(s: System, a: Action)
    requires Enabled(s, a) && !FarSide(a)
    ensures SameFarSide(s, After(s, a))
  {
    if a.ReadsHead? || a.HeadCutShort? || a.AnnouncesHead? || a.ReadsBody? || a.ReadsEof? { ReadingFrame(s, a); }
  }

  lemma FarSideStep(s: System, a: Action)
    requires SupervisorOk(s) && Enabled(s, a) && FarSide(a)
    ensures SupervisorOk(After(s, a))
  {
  }

  lemma SupervisorStep(s: System, a: Action)
    requires SupervisorOk(s) && Enabled(s, a)
    ensures SupervisorOk(After(s, a))
  {
    if FarSide(a) { FarSideStep(s, a); } else { NearSideFrame(s, a); }
  }

  lemma ChildStep(s: System, a: Action)
    requires Inv(s) && Enabled(s, a) && (a.ChildWrites? || a.ChildForks? || a.HelperEnds? || a.ChildExits?)
    ensures ReaderOk(After(s, a)) && MarkOk(After(s, a))
  {
    if a.ChildWrites? {
      var t := After(s, a);
      assert t.written[..s.taken] == s.written[..s.taken];
      if s.headLen <= s.taken { assert t.written[s.headLen..s.taken] == s.written[s.headLen..s.taken]; }
    }
  }

  /** A reader that stops before anything was sent. */
  lemma StopsEarly(t: System)
    requires t.reader.Finished? && t.queue == [] && !t.client.EndedClean? && t.taken <= |t.written|
    ensures ReaderOk(t) && MarkOk(t)
  {
  }

  lemma ReadOn(s: System, n: nat)
    requires ReaderOk(s) && MarkOk(s) && s.reader.ReadingHead? && s.taken + n <= |s.written|
    requires HeadEnd(s.written[..s.taken + n]).None?
    ensures ReaderOk(s.(taken := s.taken + n)) && MarkOk(s.(taken := s.taken + n))
  {
  }

  lemma ReadHead(s: System, n: nat, e: nat)
    requires ReaderOk(s) && MarkOk(s) && s.reader.ReadingHead? && s.taken + n <= |s.written|
    requires HeadEnd(s.written[..s.taken + n]) == Some(e)
    ensures var t := s.(taken := s.taken + n, reader := GotHead(s.written[..s.taken + n][e..]), headLen := e);
      ReaderOk(t) && MarkOk(t)
  {
    HeadFlows(s.(taken := s.taken + n, reader := GotHead(s.written[..s.taken + n][e..]), headLen := e));
  }

  lemma HeadStepCases(s: System, n: nat, headOk: bool)
    requires ReaderOk(s) && s.reader.ReadingHead? && s.taken + n <= |s.written|
    ensures var t, head := HeadStep(s, n, headOk), HeadEnd(s.written[..s.taken + n]);
      || (t.reader.Finished? && t.queue == [] && !t.client.EndedClean? && t.taken <= |t.written|)
      || (head.None? && t == s.(taken := s.taken + n))
      || (head.Some? && t == s.(taken := s.taken + n, reader := GotHead(s.written[..s.taken + n][head.value..]),
        headLen := head.value))
  {
  }

  lemma ReadStep(s: System, n: nat, headOk: bool)
    requires ReaderOk(s) && MarkOk(s) && Enabled(s, ReadsHead(n, headOk))
    ensures ReaderOk(After(s, ReadsHead(n, headOk))) && MarkOk(After(s, ReadsHead(n, headOk)))
  {
    ReadStepAs(s, n, HeadEnd(s.written[..s.taken + n]), HeadStep(s, n, headOk)) by { HeadStepCases(s, n, headOk); }
  }

  lemma ReadStepAs(s: System, n: nat, head: Option<nat>, t: System)
    requires ReaderOk(s) && MarkOk(s) && s.reader.ReadingHead? && s.taken + n <= |s.written|
    requires head == HeadEnd(s.written[..s.taken + n])
    requires
      || (t.reader.Finished? && t.queue == [] && !t.client.EndedClean? && t.taken <= |t.written|)
      || (head.None? && t == s.(taken := s.taken + n))
      || (head.Some? && t == s.(taken := s.taken + n, reader := GotHead(s.written[..s.taken + n][head.value..]),
        headLen := head.value))
    ensures ReaderOk(t) && MarkOk(t)
  {
    if t.reader.Finished? { StopsEarly(t); }
    else if head.Some? { ReadHead(s, n, head.value); }
    else { ReadOn(s, n); }
  }

  lemma HeadFlows(t: System)
    requires t.taken <= |t.written| && HeadEnd(t.written[..t.taken]) == Some(t.headLen)
    requires t.reader == GotHead(t.written[..t.taken][t.headLen..]) && t.queue == [] && t.received == []
    ensures Flowing(t)
  {
    assert t.written[..t.taken][t.headLen..] == t.written[t.headLen..t.taken];
  }

  /** Taking the next `n` bytes does not move the head and extends what follows it. */
  lemma TakeMore(written: Bytes, headLen: nat, taken: nat, n: nat)
    requires headLen <= taken && taken + n <= |written| && HeadEnd(written[..taken]) == Some(headLen)
    ensures HeadEnd(written[..taken + n]) == Some(headLen)
    ensures written[headLen..taken + n] == written[headLen..taken] + written[taken..taken + n]
  {
    assert written[..taken + n] == written[..taken] + written[taken..taken + n];
    HeadEndExact(written[..taken], headLen);
    HeadEndStable(written[..taken], headLen, written[taken..taken + n]);
  }

  lemma BodyStep(s: System, n: nat)
    requires Inv(s) && Enabled(s, ReadsBody(n))
    ensures ReaderOk(After(s, ReadsBody(n))) && MarkOk(After(s, ReadsBody(n)))
  {
    BodyFlows(s, n);
    var t := After(s, ReadsBody(n));
    assert t.reader.item.bytes != [];
  }

  lemma BodyFlows(s: System, n: nat)
    requires s.reader.Streaming? && Flowing(s) && 0 < n && s.taken + n <= |s.written|
    ensures Flowing(After(s, ReadsBody(n)))
  {
    TakeMore(s.written, s.headLen, s.taken, n);
    NothingInHand(s.received + ChannelBytes(s.queue));
  }

  lemma NothingInHand(b: Bytes)
    ensures b + [] == b
  {
  }

  lemma SendFlows(s: System)
    requires s.reader.Forwarding? && Flowing(s) && Enabled(s, Sends)
    ensures Flowing(After(s, Sends))
  {
    var item := s.reader.item;
    ChannelConcat(s.queue, [item]);
    assert ChannelBytes([item]) == InHand(s.reader);
    Regroup(s.received, ChannelBytes(s.queue), InHand(s.reader));
  }

  lemma Regroup(a: Bytes, b: Bytes, c: Bytes)
    ensures a + (b + c) + [] == a + b + c && a + (b + c) == a + b + c
  {
  }

  lemma SendStep(s: System)
    requires ReaderOk(s) && MarkOk(s) && Enabled(s, Sends)
    ensures ReaderOk(After(s, Sends)) && MarkOk(After(s, Sends))
  {
    SendFlows(s);
    var t := After(s, Sends);
    assert !EndMarked(s);
    forall i | 0 <= i < |t.queue| - 1 ensures t.queue[i] != Data([]) { assert t.queue[i] in s.queue; }
    assert Data([]) in t.queue ==> s.reader.item == Data([]);
  }

  lemma PollFlows(s: System)
    requires s.queue != [] && Enabled(s, ClientPolls) && Flowing(s)
    ensures Flowing(After(s, ClientPolls))
  {
    var b := if s.queue[0].Data? then s.queue[0].bytes else [];
    Regroup(s.received, b, ChannelBytes(s.queue[1..]));
    NothingInHand(s.received);
  }

  lemma PollStep(s: System)
    requires ReaderOk(s) && MarkOk(s) && Enabled(s, ClientPolls)
    ensures ReaderOk(After(s, ClientPolls)) && MarkOk(After(s, ClientPolls))
  {
    if s.queue != [] {
      var t := After(s, ClientPolls);
      if Flowing(s) { PollFlows(s); }
      assert forall i :: 0 <= i < |t.queue| ==> t.queue[i] == s.queue[i + 1];
      if s.queue[0] == Data([]) { assert |s.queue| == 1; }
    }
  }

  lemma FarStep(s: System, a: Action)
    requires Inv(s) && Enabled(s, a)
    requires a.SeesExit? || a.GivesUp? || a.KillsGroup? || a.Reports? || a.Vanishes?
    ensures ReaderOk(After(s, a)) && MarkOk(After(s, a))
  {
  }

  lemma AnnounceStep(s: System)
    requires Inv(s) && Enabled(s, AnnouncesHead)
    ensures ReaderOk(After(s, AnnouncesHead)) && MarkOk(After(s, AnnouncesHead))
  {
    assert s.received + ChannelBytes(s.queue) + s.reader.rest == s.reader.rest;
  }

  /** The reader's other steps, a client that leaves, and a cancellation from outside. */
  lemma OtherStep(s: System, a: Action)
    requires Inv(s) && Enabled(s, a) && !FarSide(a)
    requires !a.ReadsHead? && !a.AnnouncesHead? && !a.ReadsBody? && !a.Sends? && !a.ClientPolls?
    ensures ReaderOk(After(s, a)) && MarkOk(After(s, a))
  {
  }

  lemma StepKeeps(s: System, a: Action)
    requires Inv(s) && Enabled(s, a)
    ensures Inv(After(s, a))
  {
    SupervisorStep(s, a);
    match a
    case ChildWrites(_) => ChildStep(s, a);
    case ChildForks => ChildStep(s, a);
    case HelperEnds => ChildStep(s, a);
    case ChildExits(_) => ChildStep(s, a);
    case ReadsHead(n, ok) => ReadStep(s, n, ok);
    case ReadsBody(n) => BodyStep(s, n);
    case Sends => SendStep(s);
    case ClientPolls => PollStep(s);
    case AnnouncesHead => AnnounceStep(s);
    case _ => if FarSide(a) { FarStep(s, a); } else { OtherStep(s, a); }
  }

  // ---- whole runs -------------------------------------------------------------------------------------

  /** `t` is reached from `s` by these steps, each enabled when taken. */
  ghost predicate Reaches(s: System, actions: seq<Action>, t: System)
    decreases |actions|
  {
    if actions == [] then s == t
    else Enabled(s, actions[0]) && Reaches(After(s, actions[0]), actions[1..], t)
  }

  lemma {:induction false} RunKeeps(s: System, actions: seq<Action>, t: System)
    requires Inv(s) && Reaches(s, actions, t)
    ensures Inv(t)
    decreases |actions|
  {
    if actions != [] {
      StepKeeps(s, actions[0]);
      RunKeeps(After(s, actions[0]), actions[1..], t);
    }
  }

  /** In every interleaving: a clean end of the body means git left by itself with success and the
      client has every byte it wrote after the head, in order. */
  lemma {:induction false} CleanEndIsComplete(actions: seq<Action>, t: System)
    requires Reaches(Initial, actions, t) && t.client.EndedClean?
    ensures t.leader == Exited(true, true) && t.helpers == 0
    ensures exists e: nat :: HeadIs(t.written, e) && t.received == t.written[e..]
  {
    RunKeeps(Initial, actions, t);
    assert t.written[..t.taken] == t.written;
    HeadEndExact(t.written, t.headLen);
    assert t.received + ChannelBytes(t.queue) + [] == t.received;
  }

  /** A read of the head: it goes on to the body exactly when a blank line has come and the head is good;
      it reads on exactly when none has come in at most 16 KiB; else the transport is cancelled. */
  lemma HeadStepIff(s: System, n: nat, headOk: bool, e: nat)
    requires Enabled(s, ReadsHead(n, headOk))
    ensures var (t, seen) := (After(s, ReadsHead(n, headOk)), s.written[..s.taken + n]);
      && t.taken == s.taken + n
      && (t.reader.GotHead? && t.headLen == e <==> HeadIs(seen, e) && headOk)
      && (t.reader.ReadingHead? <==> |seen| <= 16384 && forall d: nat :: !HeadIs(seen, d))
      && (t.reader.GotHead? || t.reader.ReadingHead? ||
          (t.reader.Finished? && t.cancel && (s.client.Waiting? ==> t.client.EndedError?)))
  {
    HeadEndIffs(s.written[..s.taken + n]);
  }

  lemma HeadEndIffs(seen: Bytes)
    ensures forall e: nat :: HeadEnd(seen) == Some(e) <==> HeadIs(seen, e)
  {
    forall e: nat ensures HeadEnd(seen) == Some(e) <==> HeadIs(seen, e) { HeadEndExact(seen, e); }
  }

  // ---- giving up --------------------------------------------------------------------------------------

  ghost predicate Drained(s: System) { !PipeOpen(s) && s.taken == |s.written| }

  /** The channel holds at most four items; a client that is gone or done has cancelled the transport, and
      so has a reader that stopped after the head with output still to come. */
  ghost predicate CancelOk(s: System) {
    && |s.queue| <= 4 && s.taken <= |s.written|
    && (s.client.Gone? || s.client.EndedClean? ==> s.cancel)
    && (s.client.EndedError? && s.headLen > 0 ==> s.cancel)
    && (s.supervisor == Ending(Cancelled) || s.supervisor == Killed(Cancelled) ==> s.cancel)
    && (s.reader.ReadingHead? ==> s.headLen == 0)
    && (s.reader.AwaitingVerdict? || (s.reader.Forwarding? && s.reader.last && !s.reader.cancels) ==> Drained(s))
    && (s.reader.Finished? && s.headLen > 0 ==> s.cancel || Drained(s))
  }

  ghost predicate HeadClient(s: System) {
    s.reader.ReadingHead? || s.reader.GotHead? ==> s.client.Waiting? || s.client.Gone?
  }

  lemma CancelHead(s: System, n: nat, headOk: bool)
    requires CancelOk(s) && HeadClient(s) && Enabled(s, ReadsHead(n, headOk))
    ensures CancelOk(After(s, ReadsHead(n, headOk)))
  {
  }

  lemma CancelFar(s: System, a: Action)
    requires CancelOk(s) && Enabled(s, a) && FarSide(a)
    ensures CancelOk(After(s, a))
  {
  }

  lemma CancelReader(s: System, a: Action)
    requires CancelOk(s) && HeadClient(s) && Enabled(s, a)
    requires a.HeadCutShort? || a.AnnouncesHead? || a.ReadsBody? || a.ReadsEof? || a.ReadFails?
    ensures CancelOk(After(s, a))
  {
  }

  lemma CancelSends(s: System, a: Action)
    requires CancelOk(s) && Enabled(s, a) && (a.Sends? || a.SendFails? || a.HearsVerdict?)
    ensures CancelOk(After(s, a))
  {
  }

  lemma CancelClient(s: System, a: Action)
    requires CancelOk(s) && Enabled(s, a) && (a.ClientPolls? || a.ClientLeaves? || a.CancelledFromOutside?)
    ensures CancelOk(After(s, a))
  {
  }

  lemma CancelStep(s: System, a: Action)
    requires CancelOk(s) && HeadClient(s) && Enabled(s, a)
    ensures CancelOk(After(s, a))
  {
    if FarSide(a) { CancelFar(s, a); }
    else if a.ReadsHead? { CancelHead(s, a.n, a.headOk); }
    else if a.Sends? || a.SendFails? || a.HearsVerdict? { CancelSends(s, a); }
    else if a.ClientPolls? || a.ClientLeaves? || a.CancelledFromOutside? { CancelClient(s, a); }
    else { CancelReader(s, a); }
  }

  /** What the client sees of the channel: bytes in order, an error at once for a failure and for a channel
      closed without the end marker, and a clean end for the marker alone. */
  lemma PollShows(s: System)
    requires Enabled(s, ClientPolls)
    ensures var t := After(s, ClientPolls);
      && (t.client.EndedClean? <==> s.queue != [] && s.queue[0] == Data([]))
      && (t.client.EndedError? <==> s.queue == [] || s.queue[0] == Failure)
      && (t.client.Polling? ==> s.queue != [] && s.queue[0].Data? && t.received == s.received + s.queue[0].bytes)
      && (t.client.Polling? || t.received == s.received)
  {
  }

  /** A reader that cannot go on stops for good, and a cancellation is there for the supervisor to see. */
  lemma StopsAreSeen(s: System, a: Action)
    requires Enabled(s, a)
    ensures a.SendFails? || a.HeadCutShort? || (a.AnnouncesHead? && !s.client.Waiting?) ==> After(s, a).reader.Finished?
    ensures a.CancelledFromOutside? ==>
              After(s, a).cancel && (s.supervisor.Watching? ==> Enabled(After(s, a), GivesUp(Cancelled)))
  {
  }

  // ---- what a clean end rules out -----------------------------------------------------------------------

  /** A step after which the body must not end cleanly: output not read or not passed on, a client that
      leaves, a supervisor that ends the child, vanishes or cannot wait for it. */
  predicate Spoils(a: Action) {
    || a.ReadFails? || a.SendFails? || a.HeadCutShort? || a.ClientLeaves?
    || a.GivesUp? || a.Vanishes? || a == Reports(false)
  }

  /** No end marker is there and none can come. */
  ghost predicate Spoiled(s: System) {
    || s.client.Gone?
    || (!EndMarked(s)
        && (s.reader.Finished? || (s.reader.Forwarding? && s.reader.last && s.reader.item == Failure)
            || s.verdict == Some(false) || (s.supervisor.Vanished? && s.verdict.None?)
            || ((s.supervisor.Ending? || s.supervisor.Killed?) && s.supervisor.reason != LeftByItself)))
  }

  lemma SpoilStep(s: System, a: Action)
    requires Inv(s) && Enabled(s, a) && Spoils(a)
    ensures Spoiled(After(s, a))
  {
  }

  lemma SpoiledBySupervisor(s: System, a: Action)
    requires Inv(s) && Enabled(s, a) && Spoiled(s) && FarSide(a)
    ensures Spoiled(After(s, a))
  {
  }

  lemma SpoiledByReader(s: System, a: Action)
    requires Inv(s) && Enabled(s, a) && Spoiled(s) && !FarSide(a)
    requires !a.Sends? && !a.ClientPolls?
    ensures Spoiled(After(s, a))
  {
    if a.ReadsHead? { HeadStepCases(s, a.n, a.headOk); }
  }

  lemma SpoiledBySending(s: System)
    requires Inv(s) && Enabled(s, Sends) && Spoiled(s)
    ensures Spoiled(After(s, Sends))
  {
    var item := s.reader.item;
    assert After(s, Sends).queue == s.queue + [item];
  }

  lemma SpoiledByPolling(s: System)
    requires Inv(s) && Enabled(s, ClientPolls) && Spoiled(s)
    ensures Spoiled(After(s, ClientPolls))
  {
    if s.queue != [] { assert Data([]) in s.queue[1..] ==> Data([]) in s.queue; }
  }

  lemma {:induction false} SpoiledRun(s: System, actions: seq<Action>, t: System)
    requires Inv(s) && Reaches(s, actions, t) && (Spoiled(s) || exists a :: a in actions && Spoils(a))
    ensures Spoiled(t)
    decreases |actions|
  {
    if actions != [] {
      var a := actions[0];
      StepKeeps(s, a);
      if Spoils(a) { SpoilStep(s, a); }
      else if Spoiled(s) {
        if FarSide(a) { SpoiledBySupervisor(s, a); }
        else if a.Sends? { SpoiledBySending(s); }
        else if a.ClientPolls? { SpoiledByPolling(s); }
        else { SpoiledByReader(s, a); }
      }
      SpoiledRun(After(s, a), actions[1..], t);
    }
  }

  /** In every interleaving: a body that ended cleanly has seen none of these steps. */
  lemma {:induction false} CleanMeansUndisturbed(actions: seq<Action>, t: System)
    requires Reaches(Initial, actions, t) && t.client.EndedClean?
    ensures forall a :: a in actions ==> !Spoils(a)
  {
    if a :| a in actions && Spoils(a) { SpoiledRun(Initial, actions, t); }
  }

  /** A head that never comes is answered with an error. */
  lemma HeadlessAnswered(s: System)
    requires Enabled(s, HeadCutShort) && s.client.Waiting?
    ensures After(s, HeadCutShort).client.EndedError? && After(s, HeadCutShort).reader.Finished?
  {
  }

  /** A helper holds the pipe open after git is gone, and closes it when it ends. */
  lemma HelperHoldsPipe(s: System, ok: bool)
    requires s.leader.Running? && s.helpers == 0
    ensures var t := After(After(s, ChildForks), ChildExits(ok));
      PipeOpen(t) && Enabled(t, HelperEnds) && !PipeOpen(After(t, HelperEnds))
  {
  }

  /** A client that has left, or has seen the end, clean or not, never sees anything else. */
  lemma EndsAreFinal(s: System, a: Action)
    requires ReaderOk(s) && Enabled(s, a) && (s.client.Gone? || s.client.EndedClean? || s.client.EndedError?)
    ensures After(s, a).client == s.client && After(s, a).received == s.received
  {
  }

  lemma {:induction false} CancelRun(s: System, actions: seq<Action>, t: System)
    requires Inv(s) && CancelOk(s) && Reaches(s, actions, t)
    ensures CancelOk(t)
    decreases |actions|
  {
    if actions != [] {
      StepKeeps(s, actions[0]);
      CancelStep(s, actions[0]);
      CancelRun(After(s, actions[0]), actions[1..], t);
    }
  }

  /** In every interleaving: once the client is gone or the reader has stopped with output still to come,
      the supervisor, if it still watches, may end the child at once. */
  lemma {:induction false} AbandonedIsCancelled(actions: seq<Action>, t: System)
    requires Reaches(Initial, actions, t)
    requires t.client.Gone? || (t.reader.Finished? && t.headLen > 0 && !Drained(t))
    ensures t.cancel && (t.supervisor.Watching? ==> Enabled(t, GivesUp(Cancelled))) && |t.queue| <= 4
  {
    CancelRun(Initial, actions, t);
  }

  /** And it ends none as cancelled unless it was. */
  lemma {:induction false} CancelledWasAsked(actions: seq<Action>, t: System)
    requires Reaches(Initial, actions, t) && (t.supervisor == Ending(Cancelled) || t.supervisor == Killed(Cancelled))
    ensures t.cancel
  {
    CancelRun(Initial, actions, t);
  }

  lemma {:induction false} OneMore(s: System, actions: seq<Action>, t: System, a: Action)
    requires Reaches(s, actions, t) && Enabled(t, a)
    ensures Reaches(s, actions + [a], After(t, a))
    decreases |actions|
  {
    if actions == [] {
      assert (actions + [a])[1..] == [];
    } else {
      OneMore(After(s, actions[0]), actions[1..], t, a);
      assert (actions + [a])[1..] == actions[1..] + [a];
    }
  }

  ghost predicate Reachable(t: System) { exists actions :: Reaches(Initial, actions, t) }

  ghost predicate Closed(p: System -> bool) {
    p(Initial) && forall s, a {:trigger p(After(s, a))} :: p(s) && Enabled(s, a) ==> p(After(s, a))
  }

  /** After one write of `head` and `body`, read and announced. */
  function Announced(head: Bytes, body: Bytes): System {
    Initial.(written := head + body, taken := |head| + |body|, headLen := |head|, client := Polling,
             reader := if body == [] then Streaming else Forwarding(Data(body), false, false))
  }

  /** Delivered, exited with success and reported: only the end of the stream is missing. */
  function Delivered(head: Bytes, body: Bytes): System {
    Announced(head, body).(reader := Streaming, received := body, leader := Exited(true, true),
                     supervisor := Reported, signalled := true, verdict := Some(true))
  }

  function Ended(head: Bytes, body: Bytes): System {
    Delivered(head, body).(reader := Finished, client := EndedClean, cancel := true)
  }

  lemma Next(p: System -> bool, s: System, a: Action, t: System)
    requires Closed(p) && p(s) && Enabled(s, a) && After(s, a) == t
    ensures p(t)
  {
    assert p(After(s, a));
  }

  lemma HeadAllRead(s: System, e: nat)
    requires s.reader.ReadingHead? && s.taken == 0 && HeadIs(s.written, e)
    ensures Enabled(s, ReadsHead(|s.written|, true))
    ensures After(s, ReadsHead(|s.written|, true))
         == s.(taken := |s.written|, reader := GotHead(s.written[e..]), headLen := e)
  {
    HeadEndExact(s.written, e);
    assert s.written[..0 + |s.written|] == s.written;
  }

  lemma ReachesAnnounced(p: System -> bool, head: Bytes, body: Bytes)
    requires Closed(p) && HeadIs(head + body, |head|)
    ensures p(Announced(head, body))
  {
    var written := head + body;
    assert [] + written == written;
    var s := Initial.(written := written);
    Next(p, Initial, ChildWrites(written), s);
    var t := s.(taken := |written|, reader := GotHead(body), headLen := |head|);
    HeadAllRead(s, |head|);
    assert written[|head|..] == body;
    Next(p, s, ReadsHead(|written|, true), t);
    Next(p, t, AnnouncesHead, Announced(head, body));
  }

  lemma ReachesStreaming(p: System -> bool, head: Bytes, body: Bytes)
    requires Closed(p) && p(Announced(head, body))
    ensures p(Announced(head, body).(reader := Streaming, received := body))
  {
    if body != [] {
      var s0 := Announced(head, body);
      assert [] + [Data(body)] == [Data(body)] && [] + body == body;
      var s1 := s0.(queue := [Data(body)], reader := Streaming);
      Next(p, s0, Sends, s1);
      Next(p, s1, ClientPolls, s1.(queue := [], received := body));
    }
  }

  lemma ReachesDelivered(p: System -> bool, head: Bytes, body: Bytes)
    requires Closed(p) && p(Announced(head, body))
    ensures p(Delivered(head, body))
  {
    ReachesStreaming(p, head, body);
    var s2 := Announced(head, body).(reader := Streaming, received := body);
    var s3 := s2.(leader := Exited(true, true));
    Next(p, s2, ChildExits(true), s3);
    var s4 := s3.(supervisor := Ending(LeftByItself));
    Next(p, s3, SeesExit, s4);
    var s5 := s4.(supervisor := Killed(LeftByItself), signalled := true);
    Next(p, s4, KillsGroup, s5);
    Next(p, s5, Reports(true), Delivered(head, body));
  }

  lemma ReachesEnd(p: System -> bool, head: Bytes, body: Bytes)
    requires Closed(p) && p(Delivered(head, body))
    ensures p(Ended(head, body))
  {
    var s0 := Delivered(head, body);
    var s1 := s0.(reader := AwaitingVerdict);
    Next(p, s0, ReadsEof, s1);
    var s2 := s1.(reader := Forwarding(Data([]), true, false));
    Next(p, s1, HearsVerdict, s2);
    assert [] + [Data([])] == [Data([])];
    var s3 := s2.(queue := [Data([])], reader := Finished);
    Next(p, s2, Sends, s3);
    Next(p, s3, ClientPolls, Ended(head, body));
  }

  /** The clean end happens: whatever git writes after whatever head can arrive in full. */
  lemma CleanEndHappens(head: Bytes, body: Bytes)
    requires HeadIs(head + body, |head|)
    ensures exists actions, t :: Reaches(Initial, actions, t) && t.client.EndedClean? && t.received == body
  {
    var p := t => Reachable(t);
    ReachableClosed(p);
    ReachesAnnounced(p, head, body);
    ReachesDelivered(p, head, body);
    ReachesEnd(p, head, body);
  }

  lemma ReachableClosed(p: System -> bool)
    requires forall t :: p(t) == Reachable(t)
    ensures Closed(p)
  {
    assert Reaches(Initial, [], Initial);
    forall s, a | p(s) && Enabled(s, a) ensures p(After(s, a)) {
      var actions :| Reaches(Initial, actions, s);
      OneMore(Initial, actions, s, a);
    }
  }

  /** Poll until the body ends, once the reader is done. */
  ghost function Drain(s: System): System
    requires s.reader.Finished?
    decreases s.client.Polling?, |s.queue|
  {
    if s.client.Polling? then Drain(Poll(s)) else s
  }

  /** In every interleaving: once the reader is done, polling ends the body, and it ends with an
      error unless the transport was complete. */
  lemma {:induction false} EveryOtherEndIsAnError(s: System)
    requires Inv(s) && s.reader.Finished? && s.client.Polling?
    ensures Inv(Drain(s)) && (Drain(s).client.EndedClean? || Drain(s).client.EndedError?)
    ensures Drain(s).client.EndedClean? ==>
              Complete(s) && s.headLen <= |s.written| && Drain(s).received == s.written[s.headLen..]
    ensures !Complete(s) ==> Drain(s).client.EndedError?
    decreases |s.queue|
  {
    StepKeeps(s, ClientPolls);
    PollFrame(s);
    var t := Poll(s);
    if t.client.Polling? { EveryOtherEndIsAnError(t); }
    if t.client.EndedClean? { CleanReceived(t); }
  }

  lemma PollFrame(s: System)
    requires s.reader.Finished? && s.client.Polling?
    ensures var t := Poll(s);
            && t.reader == s.reader && t.written == s.written && t.headLen == s.headLen &&
              (Complete(t) <==> Complete(s))
            && (t.client.Polling? ==> |t.queue| < |s.queue|)
            && (t.client.Polling? || t.client.EndedClean? || t.client.EndedError?)
  {
  }

  lemma CleanReceived(s: System)
    requires Inv(s) && s.client.EndedClean?
    ensures Complete(s) && s.headLen <= |s.written| && s.received == s.written[s.headLen..]
  {
    assert s.received + ChannelBytes(s.queue) + [] == s.received;
    assert s.written[s.headLen..s.taken] == s.written[s.headLen..];
  }
}
