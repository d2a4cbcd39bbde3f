/** Admission of git transports: a slot of the repository, then a global one, with pools that are
    forgotten when idle and recreated on demand. */
module Admission {

  datatype Config = Config(maxTransports: nat, perRepo: nat) {
    function PerRepo(): nat { if perRepo == 0 then 1 else perRepo }
    function Total(): nat { if maxTransports == 0 then 1 else maxTransports }
  }

  const REAP_ABOVE := 256

  /** A request between arrival and departure. All but `Releasing` hold a reference to a pool. */
  datatype Phase =
    | Queued(pool: nat)      // waiting for the repository slot
    | HasRepo(pool: nat)     // waiting for the global slot
    | Running(pool: nat)     // holds both
    | Releasing              // has returned the repository slot, not yet the global one

  datatype Request = Request(repo: int, phase: Phase)

  /** `pools` is the locked map; `free` counts the permits at home of every pool ever made. */
  datatype State = State(
    cfg: Config, requests: map<nat, Request>, pools: map<int, nat>, free: map<nat, nat>,
    global: nat, nextRequest: nat, nextPool: nat)

  function Init(cfg: Config): State { State(cfg, map[], map[], map[], cfg.Total(), 0, 0) }

  predicate Uses(q: Request, pool: nat) { !q.phase.Releasing? && q.phase.pool == pool }
  predicate HoldsSlot(q: Request, pool: nat) { (q.phase.HasRepo? || q.phase.Running?) && q.phase.pool == pool }
  predicate HoldsGlobal(q: Request) { q.phase.Running? || q.phase.Releasing? }

  ghost function Holders(requests: map<nat, Request>, pool: nat): set<nat> {
    set r | r in requests && HoldsSlot(requests[r], pool)
  }
  ghost function GlobalHolders(requests: map<nat, Request>): set<nat> {
    set r | r in requests && HoldsGlobal(requests[r])
  }

  /** Idle: every permit home and no reference but the map's own. */
  predicate Idle(s: State, pool: nat)
    requires pool in s.free
  {
    !(s.free[pool] < s.cfg.PerRepo()) && forall r :: r in s.requests ==> !Uses(s.requests[r], pool)
  }

  // ---- the steps ------------------------------------------------------------------------------

  datatype Action =
    | Arrive(repo: int)
    | TakeRepoSlot(r: nat)
    | TakeGlobalSlot(r: nat)
    | TimeOut(r: nat)
    | ReturnRepoSlot(r: nat)
    | ReturnGlobalSlot(r: nat)

  ghost predicate Enabled(s: State, a: Action) {
    match a
    case Arrive(_) => true
    case TakeRepoSlot(r) => r in s.requests && s.requests[r].phase.Queued?
      && s.requests[r].phase.pool in s.free && s.free[s.requests[r].phase.pool] > 0
    case TakeGlobalSlot(r) => r in s.requests && s.requests[r].phase.HasRepo? && s.global > 0
    case TimeOut(r) => r in s.requests && (s.requests[r].phase.Queued? || s.requests[r].phase.HasRepo?)
      && s.requests[r].phase.pool in s.free
    case ReturnRepoSlot(r) => r in s.requests && s.requests[r].phase.Running? && s.requests[r].phase.pool in s.free
    case ReturnGlobalSlot(r) => r in s.requests && s.requests[r].phase.Releasing?
  }

  /** The map after forgetting idle pools, which happens only when it has grown. */
  ghost function Reaped(s: State): map<int, nat> {
    if |s.pools| > REAP_ABOVE
    then map repo | repo in s.pools && !(s.pools[repo] in s.free && Idle(s, s.pools[repo])) :: s.pools[repo]
    else s.pools
  }

  ghost function Arrived(s: State, repo: int): State {
    var kept := Reaped(s);
    if repo in kept then
      s.(pools := kept, requests := s.requests[s.nextRequest := Request(repo, Queued(kept[repo]))],
         nextRequest := s.nextRequest + 1)
    else
      s.(pools := kept[repo := s.nextPool], free := s.free[s.nextPool := s.cfg.PerRepo()],
         requests := s.requests[s.nextRequest := Request(repo, Queued(s.nextPool))],
         nextRequest := s.nextRequest + 1, nextPool := s.nextPool + 1)
  }

  ghost function Moved(s: State, r: nat, phase: Phase): map<nat, Request>
    requires r in s.requests
  {
    s.requests[r := s.requests[r].(phase := phase)]
  }

  ghost function After(s: State, a: Action): State
    requires Enabled(s, a)
  {
    match a
    case Arrive(repo) => Arrived(s, repo)
    case TakeRepoSlot(r) =>
      var p := s.requests[r].phase.pool;
      s.(requests := Moved(s, r, HasRepo(p)), free := s.free[p := s.free[p] - 1])
    case TakeGlobalSlot(r) =>
      s.(requests := Moved(s, r, Running(s.requests[r].phase.pool)), global := s.global - 1)
    case TimeOut(r) =>
      var p := s.requests[r].phase.pool;
      s.(requests := s.requests - {r},
         free := if s.requests[r].phase.HasRepo? then s.free[p := s.free[p] + 1] else s.free)
    case ReturnRepoSlot(r) =>
      var p := s.requests[r].phase.pool;
      s.(requests := Moved(s, r, Releasing), free := s.free[p := s.free[p] + 1])
    case ReturnGlobalSlot(r) => s.(requests := s.requests - {r}, global := s.global + 1)
  }

  // ---- the invariant -----------------------------------------------------------------------------

  /** Permits are conserved: at home plus held is the size of the pool. */
  ghost predicate Conserved(s: State) {
    && (forall p :: p in s.free ==> s.free[p] + |Holders(s.requests, p)| == s.cfg.PerRepo())
    && s.global + |GlobalHolders(s.requests)| == s.cfg.Total()
  }

  /** A pool in use is the one in the map, and two repositories never share one. */
  ghost predicate Mapped(s: State) {
    && (forall r :: r in s.requests && !s.requests[r].phase.Releasing? ==>
          s.requests[r].repo in s.pools && s.pools[s.requests[r].repo] == s.requests[r].phase.pool)
    && (forall a, b :: a in s.pools && b in s.pools && s.pools[a] == s.pools[b] ==> a == b)
    && (forall a :: a in s.pools ==> s.pools[a] in s.free)
    && (forall p :: p in s.free ==> p < s.nextPool)
    && (forall r :: r in s.requests ==> r < s.nextRequest)
  }

  ghost predicate Inv(s: State) { Conserved(s) && Mapped(s) }

  lemma InitInv(cfg: Config)
    ensures Inv(Init(cfg))
  {
    assert GlobalHolders(map[]) == {};
  }

  /** Reaping never forgets a pool somebody uses. */
  lemma ReapedKeepsUsed(s: State)
    requires Inv(s)
    ensures forall r :: r in s.requests && !s.requests[r].phase.Releasing? ==>
              s.requests[r].repo in Reaped(s) && Reaped(s)[s.requests[r].repo] == s.requests[r].phase.pool
    ensures forall a :: a in Reaped(s) ==> a in s.pools && Reaped(s)[a] == s.pools[a]
  {
    forall r | r in s.requests && !s.requests[r].phase.Releasing?
      ensures s.requests[r].repo in Reaped(s) && Reaped(s)[s.requests[r].repo] == s.requests[r].phase.pool
    {
      assert Uses(s.requests[r], s.pools[s.requests[r].repo]);
    }
  }

  /** An arrival joins the queue of its repository's pool, whether that was there, forgotten or new. */
  lemma ArriveQueues(s: State, repo: int)
    requires Inv(s)
    ensures var (t, r) := (Arrived(s, repo), s.nextRequest);
      && r !in s.requests && r in t.requests && repo in t.pools && t.pools[repo] in t.free
      && t.requests[r] == Request(repo, Queued(t.pools[repo]))
      && t.requests == s.requests[r := t.requests[r]] && t.global == s.global
  {
  }

  /** A request that meets nobody is admitted: it takes its two slots and runs. */
  lemma AloneIsAdmitted(s: State, repo: int)
    requires Inv(s) && s.requests == map[]
    ensures var (s1, r) := (After(s, Arrive(repo)), s.nextRequest);
      && Enabled(s1, TakeRepoSlot(r))
      && var s2 := After(s1, TakeRepoSlot(r));
        Enabled(s2, TakeGlobalSlot(r)) && After(s2, TakeGlobalSlot(r)).requests[r].phase.Running?
  {
    ArriveQueues(s, repo);
    ArriveKeeps(s, repo);
    var s1, r := After(s, Arrive(repo)), s.nextRequest;
    assert s1.requests.Keys == {r};
    var p := s1.pools[repo];
    assert Holders(s1.requests, p) == {} && GlobalHolders(s1.requests) == {};
  }

  lemma ArriveMapped(s: State, repo: int)
    requires Inv(s)
    ensures Mapped(Arrived(s, repo))
  {
    ReapedKeepsUsed(s);
  }

  lemma ArriveConserved(s: State, repo: int)
    requires Inv(s)
    ensures Conserved(Arrived(s, repo))
  {
    var t := Arrived(s, repo);
    assert GlobalHolders(t.requests) == GlobalHolders(s.requests);
    forall p | p in t.free ensures t.free[p] + |Holders(t.requests, p)| == s.cfg.PerRepo() {
      assert Holders(t.requests, p) == Holders(s.requests, p);
      if p !in s.free { NoHolders(s, p); }
    }
  }

  lemma NoHolders(s: State, p: nat)
    requires Mapped(s) && p !in s.free
    ensures Holders(s.requests, p) == {}
  {
  }

  lemma ArriveKeeps(s: State, repo: int)
    requires Inv(s)
    ensures Inv(Arrived(s, repo))
  {
    ArriveMapped(s, repo);
    ArriveConserved(s, repo);
  }

  lemma TakeRepoKeeps(s: State, r: nat)
    requires Inv(s) && Enabled(s, TakeRepoSlot(r))
    ensures Inv(After(s, TakeRepoSlot(r)))
  {
    var t := After(s, TakeRepoSlot(r));
    forall q | q in t.free ensures t.free[q] + |Holders(t.requests, q)| == s.cfg.PerRepo() {
      HolderGained(s, r, q);
    }
    assert GlobalHolders(t.requests) == GlobalHolders(s.requests);
  }

  /** A queued request that gets its repository slot holds that pool and no other. */
  lemma HolderGained(s: State, r: nat, q: nat)
    requires r in s.requests && s.requests[r].phase.Queued?
    ensures var p := s.requests[r].phase.pool;
      |Holders(Moved(s, r, HasRepo(p)), q)| == |Holders(s.requests, q)| + if q == p then 1 else 0
  {
    var p := s.requests[r].phase.pool;
    assert Holders(Moved(s, r, HasRepo(p)), q)
        == Holders(s.requests, q) + if q == p then {r} else {};
    assert r !in Holders(s.requests, q);
  }

  lemma TakeGlobalKeeps(s: State, r: nat)
    requires Inv(s) && Enabled(s, TakeGlobalSlot(r))
    ensures Inv(After(s, TakeGlobalSlot(r)))
  {
    var t := After(s, TakeGlobalSlot(r));
    forall q | q in t.free ensures t.free[q] + |Holders(t.requests, q)| == s.cfg.PerRepo() {
      assert Holders(t.requests, q) == Holders(s.requests, q);
    }
    assert GlobalHolders(t.requests) == GlobalHolders(s.requests) + {r};
  }

  lemma TimeOutKeeps(s: State, r: nat)
    requires Inv(s) && Enabled(s, TimeOut(r))
    ensures Inv(After(s, TimeOut(r)))
  {
    var t := After(s, TimeOut(r));
    forall q | q in t.free ensures t.free[q] + |Holders(t.requests, q)| == s.cfg.PerRepo() {
      HolderLost(s, r, q);
    }
    assert GlobalHolders(t.requests) == GlobalHolders(s.requests);
  }

  /** A waiting request that leaves gives up the slot it holds, if any. */
  lemma HolderLost(s: State, r: nat, q: nat)
    requires r in s.requests && (s.requests[r].phase.Queued? || s.requests[r].phase.HasRepo?)
    ensures |Holders(s.requests - {r}, q)| + (if s.requests[r].phase == HasRepo(q) then 1 else 0)
         == |Holders(s.requests, q)|
  {
    assert Holders(s.requests - {r}, q) == Holders(s.requests, q) - {r};
    assert r in Holders(s.requests, q) <==> s.requests[r].phase == HasRepo(q);
  }

  lemma ReturnRepoKeeps(s: State, r: nat)
    requires Inv(s) && Enabled(s, ReturnRepoSlot(r))
    ensures Inv(After(s, ReturnRepoSlot(r)))
  {
    var t := After(s, ReturnRepoSlot(r));
    forall q | q in t.free ensures t.free[q] + |Holders(t.requests, q)| == s.cfg.PerRepo() {
      assert Holders(t.requests, q) == Holders(s.requests, q) - {r};
      assert r in Holders(s.requests, q) <==> s.requests[r].phase.pool == q;
    }
    assert GlobalHolders(t.requests) == GlobalHolders(s.requests);
  }

  lemma ReturnGlobalKeeps(s: State, r: nat)
    requires Inv(s) && Enabled(s, ReturnGlobalSlot(r))
    ensures Inv(After(s, ReturnGlobalSlot(r)))
  {
    var t := After(s, ReturnGlobalSlot(r));
    forall q | q in t.free ensures t.free[q] + |Holders(t.requests, q)| == s.cfg.PerRepo() {
      assert Holders(t.requests, q) == Holders(s.requests, q);
    }
    assert r in GlobalHolders(s.requests);
    assert GlobalHolders(t.requests) == GlobalHolders(s.requests) - {r};
  }

  lemma StepKeeps(s: State, a: Action)
    requires Inv(s) && Enabled(s, a)
    ensures Inv(After(s, a)) && After(s, a).cfg == s.cfg
  {
    match a
    case Arrive(repo) => ArriveKeeps(s, repo);
    case TakeRepoSlot(r) => TakeRepoKeeps(s, r);
    case TakeGlobalSlot(r) => TakeGlobalKeeps(s, r);
    case TimeOut(r) => TimeOutKeeps(s, r);
    case ReturnRepoSlot(r) => ReturnRepoKeeps(s, r);
    case ReturnGlobalSlot(r) => ReturnGlobalKeeps(s, r);
  }

  ghost predicate Reaches(s: State, actions: seq<Action>, t: State)
    decreases |actions|
  {
    if actions == [] then s == t
    else Enabled(s, actions[0]) && Reaches(After(s, actions[0]), actions[1..], t)
  }

  lemma {:induction false} RunKeeps(s: State, actions: seq<Action>, t: State)
    requires Inv(s) && Reaches(s, actions, t)
    ensures Inv(t) && t.cfg == s.cfg
    decreases |actions|
  {
    if actions != [] {
      StepKeeps(s, actions[0]);
      RunKeeps(After(s, actions[0]), actions[1..], t);
    }
  }

  // ---- the promises ---------------------------------------------------------------------------------

  /** Transports in flight on one repository, whatever pool they were admitted through. */
  ghost function InFlight(s: State, repo: int): set<nat> {
    set r | r in s.requests && s.requests[r].phase.Running? && s.requests[r].repo == repo
  }
  ghost function AllInFlight(s: State): set<nat> {
    set r | r in s.requests && s.requests[r].phase.Running?
  }

  lemma SubsetSize<T>(a: set<T>, b: set<T>)
    requires a <= b
    ensures |a| <= |b|
  {
    if a != {} {
      var x :| x in a;
      SubsetSize(a - {x}, b - {x});
    }
  }

  /** In every interleaving of arrivals, timeouts, releases and reaping, one repository never has
      more transports in flight than its limit, and the server never more than its own. */
  lemma {:induction false} LimitsHold(cfg: Config, actions: seq<Action>, t: State, repo: int)
    requires Reaches(Init(cfg), actions, t)
    ensures |InFlight(t, repo)| <= if cfg.perRepo == 0 then 1 else cfg.perRepo
    ensures |AllInFlight(t)| <= if cfg.maxTransports == 0 then 1 else cfg.maxTransports
  {
    InitInv(cfg);
    RunKeeps(Init(cfg), actions, t);
    SubsetSize(AllInFlight(t), GlobalHolders(t.requests));
    if InFlight(t, repo) != {} {
      var r :| r in InFlight(t, repo);
      var p := t.pools[repo];
      assert InFlight(t, repo) <= Holders(t.requests, p);
      SubsetSize(InFlight(t, repo), Holders(t.requests, p));
    }
  }

  /** And the limits are met in full: a request waiting for a slot can take it exactly while fewer requests
      than the limit hold one. */
  lemma SlotsUsedInFull(s: State, r: nat)
    requires Inv(s) && r in s.requests
    ensures s.requests[r].phase.Queued? ==>
              (Enabled(s, TakeRepoSlot(r)) <==>
                |Holders(s.requests, s.requests[r].phase.pool)| < if s.cfg.perRepo == 0 then 1 else s.cfg.perRepo)
    ensures s.requests[r].phase.HasRepo? ==>
              (Enabled(s, TakeGlobalSlot(r)) <==>
                |GlobalHolders(s.requests)| < if s.cfg.maxTransports == 0 then 1 else s.cfg.maxTransports)
  {
  }

  // ---- the map of pools ------------------------------------------------------------------------------

  /** One request of each repository whose pool is in use. */
  lemma {:induction false} UsersOf(s: State, repos: set<int>) returns (users: set<nat>)
    requires Inv(s) && repos <= s.pools.Keys
    requires forall a :: a in repos ==> exists r :: r in s.requests && Uses(s.requests[r], s.pools[a])
    ensures |users| == |repos| && users <= s.requests.Keys
    ensures forall r :: r in users ==> r in s.requests && !s.requests[r].phase.Releasing? && s.requests[r].repo in repos
    decreases |repos|
  {
    if repos == {} {
      users := {};
    } else {
      var a := Pick(repos);
      var r :| r in s.requests && Uses(s.requests[r], s.pools[a]);
      var rest := UsersOf(s, repos - {a});
      assert s.requests[r].repo == a;
      users := rest + {r};
    }
  }

  lemma Pick<T>(s: set<T>) returns (x: T)
    requires s != {}
    ensures x in s
  {
    x :| x in s;
  }

  /** An arrival that finds more than 256 pools keeps only those in use, so no more than there are requests;
      and it adds at most one. */
  lemma ArriveBounded(s: State, repo: int)
    requires Inv(s)
    ensures |Arrived(s, repo).pools| <= (if |s.pools| > 256 then |s.requests| else 256) + 1
  {
    var kept := Reaped(s);
    if |s.pools| > 256 {
      forall a | a in kept ensures exists r :: r in s.requests && Uses(s.requests[r], s.pools[a]) { PoolInUse(s, a); }
      assert kept.Keys <= s.pools.Keys;
      var users := UsersOf(s, kept.Keys);
      SubsetSize(users, s.requests.Keys);
    }
    assert Arrived(s, repo).pools.Keys <= kept.Keys + {repo};
    OneMorePool(Arrived(s, repo).pools.Keys, kept.Keys, repo);
  }

  lemma PoolInUse(s: State, a: int)
    requires Inv(s) && |s.pools| > 256 && a in Reaped(s)
    ensures exists r :: r in s.requests && Uses(s.requests[r], s.pools[a])
  {
    var p := s.pools[a];
    if s.free[p] < s.cfg.PerRepo() {
      assert |Holders(s.requests, p)| > 0 && Holders(s.requests, p) != {};
      var r :| r in Holders(s.requests, p);
      assert Uses(s.requests[r], p);
    }
  }

  lemma OneMorePool(now: set<int>, kept: set<int>, repo: int)
    requires now <= kept + {repo}
    ensures |now| <= |kept| + 1
  {
    SubsetSize(now, kept + {repo});
  }

  /** At most `m` requests are there at once, all along the run. */
  ghost predicate Peak(s: State, actions: seq<Action>, m: nat)
    decreases |actions|
  {
    |s.requests| <= m && (actions != [] ==> Enabled(s, actions[0]) && Peak(After(s, actions[0]), actions[1..], m))
  }

  /** So over every run the map stays small: at most one more than 256 or the most requests there were at once. */
  lemma {:induction false} PoolsBounded(s: State, actions: seq<Action>, t: State, m: nat)
    requires Inv(s) && Reaches(s, actions, t) && Peak(s, actions, m)
    requires |s.pools| <= (if m > 256 then m else 256) + 1
    ensures |t.pools| <= (if m > 256 then m else 256) + 1
    decreases |actions|
  {
    if actions != [] {
      var a := actions[0];
      StepKeeps(s, a);
      if a.Arrive? { ArriveBounded(s, a.repo); }
      PoolsBounded(After(s, a), actions[1..], t, m);
    }
  }

  // ---- no deadlock ---------------------------------------------------------------------------------------

  /** Waiting for a slot that is not there. */
  ghost predicate Blocked(s: State, r: nat) {
    && r in s.requests
    && ((s.requests[r].phase.Queued? && s.requests[r].phase.pool in s.free && s.free[s.requests[r].phase.pool] == 0)
        || (s.requests[r].phase.HasRepo? && s.global == 0))
  }

  lemma NoGlobalMeansRunning(s: State) returns (h: nat)
    requires Inv(s) && s.global == 0
    ensures h in s.requests && HoldsGlobal(s.requests[h])
  {
    assert |GlobalHolders(s.requests)| > 0;
    h :| h in GlobalHolders(s.requests);
  }

  /** No deadlock: whoever is blocked, some transport holds a global slot and waits for nothing,
      or some request can take the global slot it waits for right now. */
  lemma BlockedMeansProgress(s: State, r: nat) returns (h: nat)
    requires Inv(s) && Blocked(s, r)
    ensures h in s.requests
    ensures HoldsGlobal(s.requests[h]) || Enabled(s, TakeGlobalSlot(h))
    ensures s.requests[r].phase.HasRepo? ==> HoldsGlobal(s.requests[h])
  {
    if s.global == 0 {
      h := NoGlobalMeansRunning(s);
    } else {
      var p := s.requests[r].phase.pool;
      assert |Holders(s.requests, p)| > 0;
      h :| h in Holders(s.requests, p);
    }
  }

  /** When nobody is left, every permit is home. */
  lemma NothingLeaks(s: State)
    requires Inv(s) && s.requests == map[]
    ensures s.global == s.cfg.Total() && forall p :: p in s.free ==> s.free[p] == s.cfg.PerRepo()
  {
    assert GlobalHolders(s.requests) == {};
    forall p | p in s.free ensures s.free[p] == s.cfg.PerRepo() { assert Holders(s.requests, p) == {}; }
  }
}
