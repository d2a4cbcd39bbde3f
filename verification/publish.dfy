/** A contents write: build a commit on the branch tip and move the ref by compare-and-swap, in
    at most three rounds, against writers that may do anything to any ref in between. */
module Publish {
  import opened Octets

  type Commit = nat
  type Ref = int
  type Graph = map<Commit, seq<Commit>>
  type Refs = map<Ref, Commit>

  const ATTEMPTS := 3

  // ---- commit graphs -------------------------------------------------------------------------

  /** `path` walks parent links from `tip` down to `c`. */
  ghost predicate Walks(g: Graph, path: seq<Commit>, c: Commit, tip: Commit) {
    && path != [] && path[0] == tip && path[|path| - 1] == c
    && forall i :: 0 <= i < |path| - 1 ==> path[i] in g && path[i + 1] in g[path[i]]
  }

  /** `c` is in the history of `tip`. */
  ghost predicate InHistory(g: Graph, c: Commit, tip: Commit) { exists path :: Walks(g, path, c, tip) }

  lemma SelfInHistory(g: Graph, c: Commit)
    ensures InHistory(g, c, c)
  {
    assert Walks(g, [c], c, c);
  }

  /** A commit built on `tip` has all of `tip`'s history. */
  lemma HistoryExtends(g: Graph, c: Commit, tip: Commit, next: Commit)
    requires InHistory(g, c, tip) && next in g && tip in g[next]
    ensures InHistory(g, c, next)
  {
    var path :| Walks(g, path, c, tip);
    assert Walks(g, [next] + path, c, next);
  }

  ghost predicate Grows(g: Graph, g1: Graph) { forall c :: c in g ==> c in g1 && g1[c] == g[c] }

  lemma HistoryKept(g: Graph, g1: Graph, c: Commit, tip: Commit)
    requires Grows(g, g1) && InHistory(g, c, tip)
    ensures InHistory(g1, c, tip)
  {
    var path :| Walks(g, path, c, tip);
    assert Walks(g1, path, c, tip);
  }

  // ---- the request ----------------------------------------------------------------------------

  datatype Verb = Post | PutVerb | DeleteVerb

  /** `target` differs from `base` exactly when a new branch is asked for. */
  datatype Write = Write(verb: Verb, base: Ref, target: Ref, baseIsDefault: bool)

  predicate NewBranch(w: Write) { w.target != w.base }

  /** An unborn default branch is where a first commit may go. */
  predicate Bootstraps(w: Write, parent: Option<Commit>) {
    parent.None? && w.verb == Post && !NewBranch(w) && w.baseIsDefault
  }

  predicate Creating(w: Write, parent: Option<Commit>) { NewBranch(w) || Bootstraps(w, parent) }

  function Full(w: Write, parent: Option<Commit>): Ref { if Creating(w, parent) then w.target else w.base }

  /** The value the ref must have for the swap: absent when creating, else the tip built on. */
  function Expected(w: Write, parent: Option<Commit>): Option<Commit> { if Creating(w, parent) then None else parent }

  datatype Outcome = Landed | Lost | LostAfterBackoff | BranchGone | Exists | NameConflict | Fatal

  /** What a failed swap meant, from a re-read of the ref and git's message. */
  function Classify(expected: Option<Commit>, bootstrap: bool, commit: Commit, now: Option<Commit>, saysLocked: bool,
                    saysExists: bool): Outcome {
    if now == Some(commit) then Landed
    else if expected.Some? && now.None? then BranchGone
    else if expected.Some? && now != expected then Lost
    else if (expected.Some? || now.None?) && saysLocked then LostAfterBackoff
    else if expected.None? && now.Some? then (if bootstrap then Lost else Exists)
    else if expected.None? && now.None? && saysExists then NameConflict
    else Fatal
  }

  /** `Refused`: the precondition check on the tree; `Denied`: branch protection; `AlreadyExists`: the
      new branch is there, or its name conflicts with one. */
  datatype Response =
    Published(commit: Commit) | Refused | Denied | NoBranch | AlreadyExists | Conflict | Locked | OtherError

  // ---- the state --------------------------------------------------------------------------------

  datatype Pc =
    | Begin
    | HasTip(parent: Option<Commit>)
    | Clear(parent: Option<Commit>)                     // no branch stands in the way of a new one
    | Passed(parent: Option<Commit>)                    // the precondition check succeeded
    | Stored(parent: Option<Commit>)                    // the blob is in the object store, if there is one
    | Built(parent: Option<Commit>, commit: Commit)
    | Failed(parent: Option<Commit>, commit: Commit, saysLocked: bool, saysExists: bool)
    | Answered(response: Response)

  /** One of our ref moves: what it replaced and what it put, and after which refs map. */
  datatype Move = Move(ref: Ref, before: Option<Commit>, after: Commit, at: nat)

  /** `past` records every refs map so far, the current one last. */
  datatype State = State(
    graph: Graph, past: seq<Refs>,
    pc: Pc, round: nat, swaps: nat, blobStored: bool, moves: seq<Move>)

  ghost predicate HasRefs(s: State) { s.past != [] }

  ghost function Now(s: State): Refs
    requires HasRefs(s)
  {
    s.past[|s.past| - 1]
  }

  function Lookup(refs: Refs, r: Ref): Option<Commit> { if r in refs then Some(refs[r]) else None }

  ghost function Start(graph: Graph, refs: Refs): State { State(graph, [refs], Begin, 0, 0, false, []) }

  // ---- the steps ----------------------------------------------------------------------------------

  datatype Action =
    // other writers: pushes (forced or not), deletions, new commits
    | OthersMove(refs: Refs)
    | OthersCommit(c: Commit, parents: seq<Commit>)
    // this write
    | ReadsTip
    | ListsBranches(conflicts: bool)          // whether a name lies under or over the new one
    | Checks(ok: bool)
    | Stores
    | Builds(c: Commit)
    // the ref moves; git may still be killed before saying so, having said anything
    | SwapLands(reported: bool, saysLocked: bool, saysExists: bool)
    | SwapRefused(saysLocked: bool, saysExists: bool)
    | Rereads(landed: bool)                   // read the ref again and decide
    | Denies                                  // branch protection, read first and again before the ref moves
    | GivesUp                                 // deadline, disk or a git error

  ghost predicate Enabled(w: Write, s: State, a: Action)
    requires HasRefs(s)
  {
    match a
    case OthersMove(refs) => forall r :: r in refs ==> refs[r] in s.graph
    case OthersCommit(c, ps) => c !in s.graph
    case ReadsTip => s.pc.Begin?
    case ListsBranches(_) => s.pc.HasTip?
    case Checks(_) => s.pc.Clear?
    case Stores => s.pc.Passed?
    case Builds(c) =>
      s.pc.Stored? && (c in s.graph ==> s.graph[c] == ParentsOf(s.pc.parent))
    case SwapLands(_, _, _) => s.pc.Built? && Lookup(Now(s), Full(w, s.pc.parent)) == Expected(w, s.pc.parent)
    case SwapRefused(_, _) => s.pc.Built?
    case Rereads(landed) =>
      && s.pc.Failed?
      && (landed <==> Lookup(Now(s), Full(w, s.pc.parent)).Some?
                      && Lookup(Now(s), Full(w, s.pc.parent)).value != s.pc.commit
                      && InHistory(s.graph, s.pc.commit, Lookup(Now(s), Full(w, s.pc.parent)).value))
    case Denies => (s.pc.Begin? && s.round == 0) || s.pc.Built?
    case GivesUp => !s.pc.Answered?
  }

  function ParentsOf(parent: Option<Commit>): seq<Commit> { if parent.Some? then [parent.value] else [] }

  ghost function NextRound(s: State, locked: bool): State {
    if s.round + 1 < ATTEMPTS then s.(pc := Begin, round := s.round + 1)
    else s.(pc := Answered(if locked then Locked else Conflict))
  }

  ghost function Decide(w: Write, s: State, landed: bool): State
    requires HasRefs(s) && s.pc.Failed?
  {
    Settle(s, Classify(Expected(w, s.pc.parent), Bootstraps(w, s.pc.parent), s.pc.commit, Seen(w, s, landed),
                       s.pc.saysLocked, s.pc.saysExists))
  }

  /** What the re-read finds of the ref: the write's own commit if it is there, or was and has been built on. */
  ghost function Seen(w: Write, s: State, landed: bool): Option<Commit>
    requires HasRefs(s) && s.pc.Failed?
  {
    if landed then Some(s.pc.commit) else Lookup(Now(s), Full(w, s.pc.parent))
  }

  ghost function Settle(s: State, outcome: Outcome): State
    requires s.pc.Failed?
  {
    match outcome
    case Landed => s.(pc := Answered(Published(s.pc.commit)))
    case Lost => NextRound(s, false)
    case LostAfterBackoff => NextRound(s, true)
    case BranchGone => s.(pc := Answered(NoBranch))
    case Exists => s.(pc := Answered(AlreadyExists))
    case NameConflict => s.(pc := Answered(AlreadyExists))
    case Fatal => s.(pc := Answered(OtherError))
  }

  ghost function After(w: Write, s: State, a: Action): State
    requires HasRefs(s) && Enabled(w, s, a)
  {
    match a
    case OthersMove(refs) => s.(past := s.past + [refs])
    case OthersCommit(c, ps) => s.(graph := s.graph[c := ps])
    case ReadsTip =>
      var parent := Lookup(Now(s), w.base);
      if parent.None? && !Bootstraps(w, parent) then s.(pc := Answered(NoBranch)) else s.(pc := HasTip(parent))
    case ListsBranches(conflicts) =>
      if NewBranch(w) && (w.target in Now(s) || conflicts) then s.(pc := Answered(AlreadyExists))
      else s.(pc := Clear(s.pc.parent))
    case Checks(ok) => s.(pc := if ok then Passed(s.pc.parent) else Answered(Refused))
    case Stores => s.(pc := Stored(s.pc.parent), blobStored := s.blobStored || w.verb != DeleteVerb)
    case Builds(c) => s.(pc := Built(s.pc.parent, c), graph := s.graph[c := ParentsOf(s.pc.parent)])
    case SwapLands(reported, l, e) =>
      var full := Full(w, s.pc.parent);
      s.(past := s.past + [Now(s)[full := s.pc.commit]], swaps := s.swaps + 1,
         moves := s.moves + [Move(full, Lookup(Now(s), full), s.pc.commit, |s.past| - 1)],
         pc := if reported then Answered(Published(s.pc.commit)) else Failed(s.pc.parent, s.pc.commit, l, e))
    case SwapRefused(l, e) => s.(pc := Failed(s.pc.parent, s.pc.commit, l, e), swaps := s.swaps + 1)
    case Rereads(landed) => Decide(w, s, landed)
    case Denies => s.(pc := Answered(Denied))
    case GivesUp => s.(pc := Answered(OtherError))
  }

  // ---- the invariant -------------------------------------------------------------------------------

  /** The commit being published has exactly the tip it was built on as its parent. */
  ghost predicate BuiltOnTip(s: State) {
    s.pc.Built? || s.pc.Failed? ==> s.pc.commit in s.graph && s.graph[s.pc.commit] == ParentsOf(s.pc.parent)
  }

  /** `c` was the tip of `r` at some moment up to `at`. */
  ghost predicate WasTip(past: seq<Refs>, at: nat, r: Ref, c: Commit) {
    exists i :: 0 <= i <= at && i < |past| && Lookup(past[i], r) == Some(c)
  }

  /** The first commit of a default branch that does not exist yet. */
  predicate FirstCommit(w: Write) { w.verb == Post && w.target == w.base && w.baseIsDefault }

  /** The refs maps around the move differ in this ref alone. What the ref had before is the one parent of
      the commit; where it had nothing, this is the first commit of the default branch, or a new branch
      whose commit was built on a tip of the base. */
  ghost predicate MoveOk(w: Write, past: seq<Refs>, graph: Graph, m: Move) {
    && m.at + 1 < |past| && Lookup(past[m.at], m.ref) == m.before && past[m.at + 1] == past[m.at][m.ref := m.after]
    && m.ref == w.target && m.after in graph
    && (m.before.Some? ==> w.target == w.base && graph[m.after] == [m.before.value])
    && (m.before.None? && w.target == w.base ==> FirstCommit(w) && graph[m.after] == [])
    && (m.before.None? && w.target != w.base ==>
          |graph[m.after]| == 1 && WasTip(past, m.at, w.base, graph[m.after][0]))
  }

  predicate HasParent(pc: Pc) { pc.HasTip? || pc.Clear? || pc.Passed? || pc.Stored? || pc.Built? || pc.Failed? }

  /** A round goes on past its tip read only with a tip of the base, or to make a first commit. */
  ghost predicate ParentOk(w: Write, s: State) {
    HasParent(s.pc) ==>
      && (s.pc.parent.None? ==> FirstCommit(w))
      && (s.pc.parent.Some? ==> WasTip(s.past, |s.past|, w.base, s.pc.parent.value))
  }

  ghost predicate MovesOk(w: Write, s: State) {
    forall i {:trigger MoveOk(w, s.past, s.graph, s.moves[i])} :: 0 <= i < |s.moves| ==>
      MoveOk(w, s.past, s.graph, s.moves[i])
  }

  lemma MoveKept(w: Write, past: seq<Refs>, graph: Graph, past1: seq<Refs>, graph1: Graph, m: Move)
    requires MoveOk(w, past, graph, m) && past <= past1 && Grows(graph, graph1)
    ensures MoveOk(w, past1, graph1, m)
  {
    if m.before.None? && w.target != w.base { TipKept(past, past1, m.at, m.at, w.base, graph[m.after][0]); }
  }

  lemma TipKept(past: seq<Refs>, past1: seq<Refs>, at: nat, at1: nat, r: Ref, c: Commit)
    requires WasTip(past, at, r, c) && past <= past1 && at <= at1
    ensures WasTip(past1, at1, r, c)
  {
    var i :| 0 <= i <= at && i < |past| && Lookup(past[i], r) == Some(c);
    assert past1[i] == past[i];
  }

  lemma MovesKept(w: Write, s: State, t: State)
    requires MovesOk(w, s) && s.past <= t.past && Grows(s.graph, t.graph) && t.moves == s.moves
    ensures MovesOk(w, t)
  {
    forall i | 0 <= i < |t.moves| ensures MoveOk(w, t.past, t.graph, t.moves[i]) {
      assert MoveOk(w, s.past, s.graph, s.moves[i]);
      MoveKept(w, s.past, s.graph, t.past, t.graph, t.moves[i]);
    }
  }

  ghost predicate RoundsOk(s: State) {
    && s.round < ATTEMPTS
    && s.swaps <= s.round + (if s.pc.Failed? || s.pc.Answered? then 1 else 0)
    && |s.moves| <= s.swaps
  }

  /** Answers that are given only after the ref was to be moved. */
  predicate AfterSwap(r: Response) { r.Published? || r.Conflict? || r.Locked? }

  /** The blob is stored from the first passed check on, unless there is none. */
  ghost predicate BlobOk(w: Write, s: State) {
    && (s.pc.Begin? || s.pc.HasTip? || s.pc.Clear? || s.pc.Passed? || s.pc == Answered(Refused) ==>
          (s.blobStored <==> s.round > 0 && w.verb != DeleteVerb))
    && (s.pc.Stored? || s.pc.Built? || s.pc.Failed? ==> (s.blobStored <==> w.verb != DeleteVerb))
    && (s.pc.Answered? && AfterSwap(s.pc.response) ==> (s.blobStored <==> w.verb != DeleteVerb))
  }

  /** A published commit has been in the history of its ref at some moment. */
  ghost predicate PublishedOk(w: Write, s: State) {
    s.pc.Answered? && s.pc.response.Published? ==>
      exists i :: WasOn(s, i, w.target, s.pc.response.commit)
  }

  ghost predicate WasOn(s: State, i: nat, r: Ref, c: Commit) {
    i < |s.past| && r in s.past[i] && InHistory(s.graph, c, s.past[i][r])
  }

  ghost predicate Inv(w: Write, s: State) {
    && HasRefs(s) && ParentOk(w, s) && BuiltOnTip(s) && MovesOk(w, s) && RoundsOk(s) && BlobOk(w, s)
    && PublishedOk(w, s)
  }

  lemma WasOnKept(s: State, t: State, i: nat, r: Ref, c: Commit)
    requires WasOn(s, i, r, c) && Grows(s.graph, t.graph) && s.past <= t.past
    ensures WasOn(t, i, r, c)
  {
    HistoryKept(s.graph, t.graph, c, s.past[i][r]);
  }

  lemma OthersKeep(w: Write, s: State, a: Action)
    requires Inv(w, s) && Enabled(w, s, a) && (a.OthersMove? || a.OthersCommit?)
    ensures Inv(w, After(w, s, a))
  {
    var t := After(w, s, a);
    MovesKept(w, s, t);
    if HasParent(s.pc) && s.pc.parent.Some? {
      TipKept(s.past, t.past, |s.past|, |t.past|, w.base, s.pc.parent.value);
    }
    if s.pc.Answered? && s.pc.response.Published? {
      var i :| WasOn(s, i, w.target, s.pc.response.commit);
      WasOnKept(s, t, i, w.target, s.pc.response.commit);
    }
  }

  /** A tip of the base was one before the move. */
  lemma TipBefore(past: seq<Refs>, past1: seq<Refs>, r: Ref, c: Commit)
    requires past != [] && past <= past1 && WasTip(past, |past|, r, c)
    ensures WasTip(past1, |past| - 1, r, c)
  {
    var i :| 0 <= i <= |past| && i < |past| && Lookup(past[i], r) == Some(c);
    assert past1[i] == past[i];
  }

  lemma SwapKeeps(w: Write, s: State, a: Action)
    requires Inv(w, s) && a.SwapLands? && Enabled(w, s, a)
    ensures Inv(w, After(w, s, a))
  {
    var t := After(w, s, a);
    if s.pc.parent.Some? {
      TipKept(s.past, t.past, |s.past|, |t.past|, w.base, s.pc.parent.value);
      TipBefore(s.past, t.past, w.base, s.pc.parent.value);
    }
    SelfInHistory(s.graph, s.pc.commit);
    assert WasOn(t, |s.past|, Full(w, s.pc.parent), s.pc.commit);
    assert MoveOk(w, t.past, t.graph, t.moves[|s.moves|]);
    forall i | 0 <= i < |s.moves| ensures MoveOk(w, t.past, t.graph, t.moves[i]) {
      assert MoveOk(w, s.past, s.graph, s.moves[i]);
      MoveKept(w, s.past, s.graph, t.past, t.graph, s.moves[i]);
    }
  }

  lemma NextRoundKeeps(w: Write, s: State, locked: bool)
    requires Inv(w, s) && s.pc.Failed?
    ensures Inv(w, NextRound(s, locked))
  {
    MovesKept(w, s, NextRound(s, locked));
  }

  lemma AnswerKeeps(w: Write, s: State, r: Response)
    requires Inv(w, s) && s.pc.Failed? && !r.Refused?
    requires r.Published? ==> exists i :: WasOn(s, i, w.target, r.commit)
    ensures Inv(w, s.(pc := Answered(r)))
  {
    MovesKept(w, s, s.(pc := Answered(r)));
    if r.Published? {
      var i :| WasOn(s, i, w.target, r.commit);
      assert WasOn(s.(pc := Answered(r)), i, w.target, r.commit);
    }
  }

  /** A commit classified as landed is at the tip read or in its history. */
  lemma LandedWasOn(w: Write, s: State, landed: bool)
    requires HasRefs(s) && s.pc.Failed? && Enabled(w, s, Rereads(landed))
    requires landed || Lookup(Now(s), Full(w, s.pc.parent)) == Some(s.pc.commit)
    ensures exists i :: WasOn(s, i, w.target, s.pc.commit)
  {
    SelfInHistory(s.graph, s.pc.commit);
    assert WasOn(s, |s.past| - 1, Full(w, s.pc.parent), s.pc.commit);
  }

  lemma RereadKeeps(w: Write, s: State, landed: bool)
    requires Inv(w, s) && Enabled(w, s, Rereads(landed))
    ensures Inv(w, Decide(w, s, landed))
    ensures Decide(w, s, landed).graph == s.graph && Decide(w, s, landed).moves == s.moves
  {
    var outcome := Classify(Expected(w, s.pc.parent), Bootstraps(w, s.pc.parent), s.pc.commit, Seen(w, s, landed),
                            s.pc.saysLocked, s.pc.saysExists);
    if outcome.Landed? { LandedWasOn(w, s, landed); }
    SettleKeeps(w, s, outcome);
  }

  lemma SettleKeeps(w: Write, s: State, outcome: Outcome)
    requires Inv(w, s) && s.pc.Failed?
    requires outcome.Landed? ==> exists i :: WasOn(s, i, w.target, s.pc.commit)
    ensures Inv(w, Settle(s, outcome))
    ensures Settle(s, outcome).graph == s.graph && Settle(s, outcome).moves == s.moves
  {
    match outcome
    case Landed => AnswerKeeps(w, s, Published(s.pc.commit));
    case Lost => NextRoundKeeps(w, s, false);
    case LostAfterBackoff => NextRoundKeeps(w, s, true);
    case BranchGone => AnswerKeeps(w, s, NoBranch);
    case Exists => AnswerKeeps(w, s, AlreadyExists);
    case NameConflict => AnswerKeeps(w, s, AlreadyExists);
    case Fatal => AnswerKeeps(w, s, OtherError);
  }

  lemma LocalKeeps(w: Write, s: State, a: Action)
    requires Inv(w, s) && Enabled(w, s, a)
    requires a.ReadsTip? || a.ListsBranches? || a.Checks? || a.Stores? || a.Builds? || a.SwapRefused? || a.Denies?
      || a.GivesUp?
    ensures Inv(w, After(w, s, a))
    ensures Grows(s.graph, After(w, s, a).graph) && s.moves == After(w, s, a).moves
  {
    MovesKept(w, s, After(w, s, a));
  }

  lemma StepKeeps(w: Write, s: State, a: Action)
    requires Inv(w, s) && Enabled(w, s, a)
    ensures Inv(w, After(w, s, a))
    ensures Grows(s.graph, After(w, s, a).graph) && s.moves <= After(w, s, a).moves
  {
    match a
    case OthersMove(_) => OthersKeep(w, s, a);
    case OthersCommit(_, _) => OthersKeep(w, s, a);
    case SwapLands(_, _, _) => SwapKeeps(w, s, a);
    case Rereads(l) => RereadKeeps(w, s, l);
    case _ => LocalKeeps(w, s, a);
  }

  ghost predicate Reaches(w: Write, s: State, actions: seq<Action>, t: State)
    requires HasRefs(s)
    decreases |actions|
  {
    if actions == [] then s == t
    else Enabled(w, s, actions[0]) && Reaches(w, After(w, s, actions[0]), actions[1..], t)
  }

  lemma {:induction false} RunKeeps(w: Write, s: State, actions: seq<Action>, t: State)
    requires Inv(w, s) && Reaches(w, s, actions, t)
    ensures Inv(w, t)
    decreases |actions|
  {
    if actions != [] {
      StepKeeps(w, s, actions[0]);
      RunKeeps(w, After(w, s, actions[0]), actions[1..], t);
    }
  }

  // ---- the promises ------------------------------------------------------------------------------------

  /** Against any writers: every ref move of this write replaces exactly the tip its commit was
      built on, or creates an absent branch, so no commit leaves the branch's history by it; it
      tries at most three swaps. */
  lemma {:induction false} MovesLoseNothing(w: Write, graph: Graph, refs: Refs, actions: seq<Action>, t: State,
                                            i: nat, c: Commit)
    requires Reaches(w, Start(graph, refs), actions, t) && i < |t.moves|
    ensures t.swaps <= ATTEMPTS && |t.moves| <= ATTEMPTS
    ensures MoveOk(w, t.past, t.graph, t.moves[i])
    ensures t.moves[i].before.Some? && InHistory(t.graph, c, t.moves[i].before.value)
            ==> InHistory(t.graph, c, t.moves[i].after)
  {
    RunKeeps(w, Start(graph, refs), actions, t);
    var m := t.moves[i];
    assert MoveOk(w, t.past, t.graph, m);
    if m.before.Some? && InHistory(t.graph, c, m.before.value) {
      HistoryExtends(t.graph, c, m.before.value, m.after);
    }
  }

  /** How often the ref was to be moved. */
  function Swaps(actions: seq<Action>): nat {
    if actions == [] then 0
    else (if actions[0].SwapLands? || actions[0].SwapRefused? then 1 else 0) + Swaps(actions[1..])
  }

  lemma {:induction false} SwapsCounted(w: Write, s: State, actions: seq<Action>, t: State)
    requires HasRefs(s) && Reaches(w, s, actions, t)
    ensures t.swaps == s.swaps + Swaps(actions)
    decreases |actions|
  {
    if actions != [] {
      SwapCounts(w, s, actions[0]);
      SwapsCounted(w, After(w, s, actions[0]), actions[1..], t);
    }
  }

  lemma SwapCounts(w: Write, s: State, a: Action)
    requires HasRefs(s) && Enabled(w, s, a)
    ensures After(w, s, a).swaps == s.swaps + if a.SwapLands? || a.SwapRefused? then 1 else 0
  {
  }

  /** Over every run the ref is asked to move at most three times. */
  lemma {:induction false} AtMostThreeSwaps(w: Write, graph: Graph, refs: Refs, actions: seq<Action>, t: State)
    requires Reaches(w, Start(graph, refs), actions, t)
    ensures Swaps(actions) <= 3
  {
    RunKeeps(w, Start(graph, refs), actions, t);
    SwapsCounted(w, Start(graph, refs), actions, t);
  }

  /** A write answered as published was in the history of the branch it names at some moment. */
  lemma {:induction false} PublishedWasThere(w: Write, graph: Graph, refs: Refs, actions: seq<Action>, t: State)
    requires Reaches(w, Start(graph, refs), actions, t)
    requires t.pc.Answered? && t.pc.response.Published?
    ensures exists i :: WasOn(t, i, w.target, t.pc.response.commit)
  {
    RunKeeps(w, Start(graph, refs), actions, t);
  }

  // ---- which answer ----------------------------------------------------------------------------------------

  /** The write's commit is, or is in the history of, what the ref points at. */
  ghost predicate OnBranch(w: Write, s: State)
    requires HasRefs(s) && s.pc.Failed?
  {
    w.target in Now(s) && InHistory(s.graph, s.pc.commit, Now(s)[w.target])
  }

  /** The ref is as the swap wanted it: the tip built on, or absent where it was to be created. */
  ghost predicate Unmoved(w: Write, s: State)
    requires HasRefs(s) && s.pc.Failed?
  {
    Lookup(Now(s), w.target) == if w.target == w.base then s.pc.parent else None
  }

  /** The action answers `r`, said by what the write asks for, what the refs hold and what git reported. */
  ghost predicate Answers(w: Write, s: State, a: Action, r: Response)
    requires HasRefs(s) && (a.Rereads? ==> s.pc.Failed?)
  {
    match r
    case Published(c) =>
      (a.SwapLands? && a.reported && s.pc.Built? && c == s.pc.commit) || (a.Rereads? && c == s.pc.commit &&
        OnBranch(w, s))
    case Refused => a == Checks(false)
    case Denied => a == Denies && (s.pc.Built? || (s.pc.Begin? && s.round == 0))
    case NoBranch =>
      || (a.ReadsTip? && w.base !in Now(s) && !FirstCommit(w))
      || (a.Rereads? && w.target == w.base && s.pc.parent.Some? && w.base !in Now(s))
    case AlreadyExists =>
      || (a.ListsBranches? && w.target != w.base && (w.target in Now(s) || a.conflicts))
      || (a.Rereads? && !OnBranch(w, s) && w.target != w.base && w.target in Now(s))
      || (a.Rereads? && w.target !in Now(s) && (w.target != w.base || s.pc.parent.None?)
          && s.pc.saysExists && !s.pc.saysLocked)
    case Conflict => a.Rereads? && s.round == 2 && !OnBranch(w, s) && w.target == w.base && w.target in Now(s) &&
      !Unmoved(w, s)
    case Locked => a.Rereads? && s.round == 2 && !OnBranch(w, s) && Unmoved(w, s) && s.pc.saysLocked
    case OtherError =>
      || a.GivesUp?
      || (a.Rereads? && !OnBranch(w, s) && Unmoved(w, s) && !s.pc.saysLocked
          && ((w.target == w.base && s.pc.parent.Some?) || !s.pc.saysExists))
  }

  /** A failed swap, read again: landed, or not, by what the ref holds. */
  lemma SeenIs(w: Write, s: State, landed: bool)
    requires HasRefs(s) && s.pc.Failed? && Enabled(w, s, Rereads(landed))
    ensures Seen(w, s, landed) == Some(s.pc.commit) <==> OnBranch(w, s)
    ensures !OnBranch(w, s) ==> Seen(w, s, landed) == Lookup(Now(s), w.target)
  {
    SelfInHistory(s.graph, s.pc.commit);
  }

  lemma RereadAnswers(w: Write, s: State, landed: bool, r: Response)
    requires HasRefs(s) && ParentOk(w, s) && s.round < ATTEMPTS && Enabled(w, s, Rereads(landed))
    ensures Decide(w, s, landed).pc == Answered(r) <==> Answers(w, s, Rereads(landed), r)
  {
    SeenIs(w, s, landed);
  }

  /** Every answer is given exactly by the events that the code gives it for. */
  lemma AnswerIff(w: Write, s: State, a: Action, r: Response)
    requires Inv(w, s) && Enabled(w, s, a) && !s.pc.Answered?
    ensures After(w, s, a).pc == Answered(r) <==> Answers(w, s, a, r)
  {
    if a.Rereads? { RereadAnswers(w, s, a.landed, r); }
  }

  /** An answer is final. */
  lemma AnsweredStays(w: Write, s: State, a: Action)
    requires HasRefs(s) && s.pc.Answered? && Enabled(w, s, a)
    ensures var t := After(w, s, a); t.pc == s.pc && t.moves == s.moves && t.blobStored == s.blobStored
  {
  }

  lemma {:induction false} AnsweredRun(w: Write, s: State, actions: seq<Action>, t: State)
    requires HasRefs(s) && s.pc.Answered? && Reaches(w, s, actions, t)
    ensures t.pc == s.pc && t.moves == s.moves && t.blobStored == s.blobStored
    decreases |actions|
  {
    if actions != [] {
      AnsweredStays(w, s, actions[0]);
      AnsweredRun(w, After(w, s, actions[0]), actions[1..], t);
    }
  }

  /** In every run that was answered there is one event that the answer is due to. */
  lemma {:induction false} AnsweredBy(w: Write, s: State, actions: seq<Action>, t: State) returns (k: nat, u: State)
    requires Inv(w, s) && !s.pc.Answered? && Reaches(w, s, actions, t) && t.pc.Answered?
    ensures k < |actions| && Reaches(w, s, actions[..k], u) && Inv(w, u) && Enabled(w, u, actions[k])
    ensures !u.pc.Answered? && Answers(w, u, actions[k], t.pc.response)
    decreases |actions|
  {
    var a, s1 := actions[0], After(w, s, actions[0]);
    StepKeeps(w, s, a);
    if s1.pc.Answered? {
      AnsweredRun(w, s1, actions[1..], t);
      AnswerIff(w, s, a, s1.pc.response);
      k, u := 0, s;
    } else {
      var j, v := AnsweredBy(w, s1, actions[1..], t);
      assert actions[..j + 1] == [a] + actions[1..][..j];
      ReachesStep(w, s, a, actions[1..][..j], v);
      k, u := j + 1, v;
    }
  }

  /** A write to a branch that is not there, and that is no first commit: whatever happens before and after
      its first tip read, it stores nothing, moves nothing and is answered that there is no such branch. */
  lemma {:induction false} MissingBranchAnswered(w: Write, graph: Graph, refs: Refs, before: seq<Action>, s: State,
                                                 after: seq<Action>, t: State)
    requires Reaches(w, Start(graph, refs), before, s) && s.pc.Begin? && s.round == 0
    requires HasRefs(s) && w.base !in Now(s) && !(w.verb == Post && w.target == w.base && w.baseIsDefault)
    requires Enabled(w, s, ReadsTip) && Reaches(w, After(w, s, ReadsTip), after, t)
    ensures t.pc == Answered(NoBranch) && t.moves == [] && !t.blobStored
  {
    RunKeeps(w, Start(graph, refs), before, s);
    AnsweredRun(w, After(w, s, ReadsTip), after, t);
  }

  /** In every state past a tip read that found nothing, the write makes the first commit of the default
      branch; and past one that found a tip, that tip was the base's. */
  lemma {:induction false} ParentsTold(w: Write, graph: Graph, refs: Refs, actions: seq<Action>, t: State)
    requires Reaches(w, Start(graph, refs), actions, t) && HasParent(t.pc)
    ensures t.pc.parent.None? ==> w.verb == Post && w.target == w.base && w.baseIsDefault
    ensures t.pc.parent.Some? ==> WasTip(t.past, |t.past|, w.base, t.pc.parent.value)
  {
    RunKeeps(w, Start(graph, refs), actions, t);
  }

  /** Where the write stands, given whether its check has passed before. */
  ghost predicate ChecksTold(s: State, passed: bool) {
    if s.pc.Begin? || s.pc.HasTip? || s.pc.Clear? || s.pc == Answered(Refused) then passed <==> s.round > 0
    else s.pc.Answered? || passed
  }

  lemma ChecksStep(w: Write, s: State, a: Action, passed: bool)
    requires HasRefs(s) && Enabled(w, s, a) && ChecksTold(s, passed)
    ensures ChecksTold(After(w, s, a), passed || a == Checks(true))
  {
  }

  lemma {:induction false} ChecksRun(w: Write, s: State, actions: seq<Action>, t: State, passed: bool)
    requires HasRefs(s) && Reaches(w, s, actions, t) && ChecksTold(s, passed)
    ensures ChecksTold(t, passed || Checks(true) in actions)
    decreases |actions|
  {
    if actions != [] {
      ChecksStep(w, s, actions[0], passed);
      ChecksRun(w, After(w, s, actions[0]), actions[1..], t, passed || actions[0] == Checks(true));
      assert Checks(true) in actions <==> actions[0] == Checks(true) || Checks(true) in actions[1..];
    }
  }

  /** A request refused by its precondition check has stored a blob exactly when it is not a
      deletion and its check had passed before, in an earlier round. */
  lemma {:induction false} RefusedStoresExactly(w: Write, graph: Graph, refs: Refs, actions: seq<Action>, t: State)
    requires Reaches(w, Start(graph, refs), actions, t) && t.pc == Answered(Refused)
    ensures t.blobStored <==> Checks(true) in actions && w.verb != DeleteVerb
  {
    RunKeeps(w, Start(graph, refs), actions, t);
    ChecksRun(w, Start(graph, refs), actions, t, false);
  }

  lemma {:induction false} StoresRun(w: Write, s: State, actions: seq<Action>, t: State)
    requires HasRefs(s) && Reaches(w, s, actions, t)
    ensures t.blobStored <==> s.blobStored || (Stores in actions && w.verb != DeleteVerb)
    decreases |actions|
  {
    if actions != [] {
      BlobStep(w, s, actions[0]);
      StoresRun(w, After(w, s, actions[0]), actions[1..], t);
      assert Stores in actions <==> actions[0] == Stores || Stores in actions[1..];
    }
  }

  lemma BlobStep(w: Write, s: State, a: Action)
    requires HasRefs(s) && Enabled(w, s, a)
    ensures After(w, s, a).blobStored <==> s.blobStored || (a == Stores && w.verb != DeleteVerb)
  {
  }

  /** When an answer leaves a blob stored: whenever the run stored one; always when it is given after the
      ref was to be moved; and for a refused check exactly when an earlier one had passed. */
  lemma {:induction false} AnswersStore(w: Write, graph: Graph, refs: Refs, actions: seq<Action>, t: State)
    requires Reaches(w, Start(graph, refs), actions, t) && t.pc.Answered?
    ensures t.blobStored <==> Stores in actions && w.verb != DeleteVerb
    ensures AfterSwap(t.pc.response) ==> (t.blobStored <==> w.verb != DeleteVerb)
    ensures t.pc.response.Refused? ==> (t.blobStored <==> Checks(true) in actions && w.verb != DeleteVerb)
  {
    RunKeeps(w, Start(graph, refs), actions, t);
    StoresRun(w, Start(graph, refs), actions, t);
    ChecksRun(w, Start(graph, refs), actions, t, false);
  }

  /** Branch protection is checked again just before the ref moves: a request denied there has stored
      its blob, in the first round. */
  lemma DeniedCanHaveStored() returns (w: Write, graph: Graph, refs: Refs, actions: seq<Action>, t: State)
    ensures Reaches(w, Start(graph, refs), actions, t) && t.pc == Answered(Denied) && t.blobStored && t.round == 0
  {
    w := Write(PutVerb, 0, 0, true);
    graph, refs := map[0 := []], map[0 := 0];
    var s0 := Start(graph, refs);
    var s1 := After(w, s0, ReadsTip);
    var c1 := After(w, s1, ListsBranches(false));
    var s2 := After(w, c1, Checks(true));
    var s3 := After(w, s2, Stores);
    var s4 := After(w, s3, Builds(1));
    t := After(w, s4, Denies);
    actions := [];
    ReachesStep(w, s4, Denies, actions, t);
    actions := [Denies] + actions;
    ReachesStep(w, s3, Builds(1), actions, t);
    actions := [Builds(1)] + actions;
    ReachesStep(w, s2, Stores, actions, t);
    actions := [Stores] + actions;
    ReachesStep(w, c1, Checks(true), actions, t);
    actions := [Checks(true)] + actions;
    ReachesStep(w, s1, ListsBranches(false), actions, t);
    actions := [ListsBranches(false)] + actions;
    ReachesStep(w, s0, ReadsTip, actions, t);
    actions := [ReadsTip] + actions;
  }

  lemma {:induction false} ReachesStep(w: Write, s: State, a: Action, rest: seq<Action>, t: State)
    requires HasRefs(s) && Enabled(w, s, a) && HasRefs(After(w, s, a)) && Reaches(w, After(w, s, a), rest, t)
    ensures Reaches(w, s, [a] + rest, t)
  {
    assert ([a] + rest)[1..] == rest;
  }

  /** A round on a branch that is there, refused by its check. */
  lemma RoundRefused(w: Write, s: State) returns (actions: seq<Action>, t: State)
    requires HasRefs(s) && s.pc.Begin? && w.target == w.base && w.base in Now(s)
    ensures Reaches(w, s, actions, t) && t.pc == Answered(Refused) && t.blobStored == s.blobStored
  {
    var s1 := After(w, s, ReadsTip);
    var s2 := After(w, s1, ListsBranches(false));
    t := After(w, s2, Checks(false));
    actions := [];
    ReachesStep(w, s2, Checks(false), actions, t);
    actions := [Checks(false)] + actions;
    ReachesStep(w, s1, ListsBranches(false), actions, t);
    actions := [ListsBranches(false)] + actions;
    ReachesStep(w, s, ReadsTip, actions, t);
    actions := [ReadsTip] + actions;
  }

  /** A built commit that loses its swap to another one, and a second round that is refused. */
  lemma LostThenRefused(w: Write, s4: State) returns (actions: seq<Action>, t: State)
    requires HasRefs(s4) && w == Write(PutVerb, 0, 0, true) && s4.pc == Built(Some(0), 2) && s4.round == 0
    requires s4.graph == map[0 := [], 2 := [0]] && Now(s4) == map[0 := 0]
    ensures Reaches(w, s4, actions, t) && t.pc == Answered(Refused) && t.blobStored == s4.blobStored
  {
    var o4 := After(w, s4, OthersCommit(1, [0]));
    var s5 := After(w, o4, OthersMove(map[0 := 1]));
    var s6 := After(w, s5, SwapRefused(false, false));
    OneIsNotBuiltOnTwo(s6.graph);
    var s7 := After(w, s6, Rereads(false));
    actions, t := RoundRefused(w, s7);
    ReachesStep(w, s6, Rereads(false), actions, t);
    actions := [Rereads(false)] + actions;
    ReachesStep(w, s5, SwapRefused(false, false), actions, t);
    actions := [SwapRefused(false, false)] + actions;
    ReachesStep(w, o4, OthersMove(map[0 := 1]), actions, t);
    actions := [OthersMove(map[0 := 1])] + actions;
    ReachesStep(w, s4, OthersCommit(1, [0]), actions, t);
    actions := [OthersCommit(1, [0])] + actions;
  }

  /** Such a request exists: it loses the first round to another commit and is refused in the
      second, with its blob already stored. */
  lemma RefusedCanHaveStored() returns (w: Write, graph: Graph, refs: Refs, actions: seq<Action>, t: State)
    ensures Reaches(w, Start(graph, refs), actions, t) && t.pc == Answered(Refused) && t.blobStored
  {
    w := Write(PutVerb, 0, 0, true);
    graph, refs := map[0 := []], map[0 := 0];
    var s0 := Start(graph, refs);
    var s1 := After(w, s0, ReadsTip);
    var c1 := After(w, s1, ListsBranches(false));
    var s2 := After(w, c1, Checks(true));
    var s3 := After(w, s2, Stores);
    var s4 := After(w, s3, Builds(2));
    actions, t := LostThenRefused(w, s4);
    ReachesStep(w, s3, Builds(2), actions, t);
    actions := [Builds(2)] + actions;
    ReachesStep(w, s2, Stores, actions, t);
    actions := [Stores] + actions;
    ReachesStep(w, c1, Checks(true), actions, t);
    actions := [Checks(true)] + actions;
    ReachesStep(w, s1, ListsBranches(false), actions, t);
    actions := [ListsBranches(false)] + actions;
    ReachesStep(w, s0, ReadsTip, actions, t);
    actions := [ReadsTip] + actions;
  }

  lemma OneIsNotBuiltOnTwo(g: Graph)
    requires 0 in g && g[0] == [] && 1 in g && g[1] == [0]
    ensures !InHistory(g, 2, 1)
  {
    forall path ensures !Walks(g, path, 2, 1) {
      if |path| > 1 && path[0] == 1 {
        var next, last := path[1], if |path| > 2 then path[2] else 0;
      }
    }
  }
}
