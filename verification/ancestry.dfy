/** The breadth-first walk over all parents, and the tallies `verify` makes over it. */
module Ancestry {
  import opened Octets

  type Id = Bytes

  /** The parents of every snapshot the store can return. */
  type Graph = map<Id, seq<Id>>

  datatype Walk = Walked(order: seq<Id>) | Missing(id: Id)

  // ---- ancestors ------------------------------------------------------------------------------

  ghost function ParentsOf(g: Graph, xs: set<Id>): set<Id> {
    set x, p | x in xs && x in g && p in g[x] :: p
  }

  /** Reached from the tip in at most `n` steps to a parent. */
  ghost function Within(g: Graph, tip: Id, n: nat): set<Id> {
    if n == 0 then {tip} else Within(g, tip, n - 1) + ParentsOf(g, Within(g, tip, n - 1))
  }

  ghost predicate Ancestor(g: Graph, tip: Id, x: Id) { exists n: nat :: x in Within(g, tip, n) }

  /** `d` is the fewest steps from the tip to `x`. */
  ghost predicate AtDistance(g: Graph, tip: Id, x: Id, d: nat) {
    x in Within(g, tip, d) && (d > 0 ==> x !in Within(g, tip, d - 1))
  }

  lemma {:induction false} WithinGrows(g: Graph, tip: Id, m: nat, n: nat)
    requires m <= n
    ensures Within(g, tip, m) <= Within(g, tip, n)
    decreases n
  {
    if m < n { WithinGrows(g, tip, m, n - 1); }
  }

  lemma DistanceUnique(g: Graph, tip: Id, x: Id, d: nat, e: nat)
    requires AtDistance(g, tip, x, d) && AtDistance(g, tip, x, e)
    ensures d == e
  {
    if d < e { WithinGrows(g, tip, d, e - 1); }
    if e < d { WithinGrows(g, tip, e, d - 1); }
  }

  // ---- what the walk keeps ----------------------------------------------------------------------

  function Elements(xs: seq<Id>): set<Id> { set x | x in xs }

  predicate Distinct(xs: seq<Id>) { forall i, j :: 0 <= i < j < |xs| ==> xs[i] != xs[j] }

  /** The depths never fall, and end at most one above the depth of the head of the queue. */
  predicate Layered(ds: seq<nat>, k: nat) {
    && (forall i, j :: 0 <= i < j < |ds| ==> ds[i] <= ds[j])
    && (forall i :: 0 <= k < |ds| && 0 <= i < |ds| ==> ds[i] <= ds[k] + 1)
  }

  ghost predicate Depths(g: Graph, tip: Id, all: seq<Id>, ds: seq<nat>) {
    |ds| == |all| && forall i {:trigger AtDistance(g, tip, all[i], ds[i])} :: 0 <= i < |all| ==>
      AtDistance(g, tip, all[i], ds[i])
  }

  /** The first `k` have been visited: they exist and their parents have been seen. */
  predicate Visited(g: Graph, all: seq<Id>, k: nat) {
    k <= |all| && forall i :: 0 <= i < k ==> all[i] in g && forall p :: p in g[all[i]] ==> p in all
  }

  /** Everything as near as the head of the queue has been seen. */
  ghost predicate NearSeen(g: Graph, tip: Id, all: seq<Id>, ds: seq<nat>, k: nat)
    requires |ds| == |all|
  {
    k < |all| ==> forall x :: x in Within(g, tip, ds[k]) ==> x in all
  }

  /** `all` is the visited order followed by the queue, `k` where the queue starts, `ds` the depths. */
  ghost predicate WalkInv(g: Graph, tip: Id, all: seq<Id>, k: nat, ds: seq<nat>) {
    && tip in all && Distinct(all) && Depths(g, tip, all, ds) && Layered(ds, k)
    && Visited(g, all, k) && NearSeen(g, tip, all, ds, k)
  }

  /** The parents not yet seen, each once, in order. */
  function Fresh(ps: seq<Id>, seen: set<Id>): seq<Id> {
    if ps == [] then []
    else if ps[0] in seen then Fresh(ps[1..], seen)
    else [ps[0]] + Fresh(ps[1..], seen + {ps[0]})
  }

  lemma {:induction false} FreshSpec(ps: seq<Id>, seen: set<Id>)
    ensures Distinct(Fresh(ps, seen))
    ensures forall x :: x in Fresh(ps, seen) <==> x in ps && x !in seen
  {
    if ps != [] {
      assert forall x :: x in ps <==> x == ps[0] || x in ps[1..];
      if ps[0] in seen {
        FreshSpec(ps[1..], seen);
      } else {
        var rest := Fresh(ps[1..], seen + {ps[0]});
        FreshSpec(ps[1..], seen + {ps[0]});
        assert forall i :: 0 <= i < |rest| ==> rest[i] in rest;
      }
    }
  }

  /** A parent of the head that was not seen is one step further than the head. */
  lemma FreshDepth(g: Graph, tip: Id, all: seq<Id>, k: nat, ds: seq<nat>, p: Id)
    requires WalkInv(g, tip, all, k, ds) && k < |all| && all[k] in g && p in g[all[k]] && p !in all
    ensures AtDistance(g, tip, p, ds[k] + 1)
  {
    assert AtDistance(g, tip, all[k], ds[k]);
    assert p in ParentsOf(g, Within(g, tip, ds[k]));
  }

  /** What lies within `d` steps has been seen and, if the head of the queue is further, visited. */
  lemma NearerVisited(g: Graph, tip: Id, all: seq<Id>, k: nat, ds: seq<nat>, d: nat)
    requires Depths(g, tip, all, ds) && Layered(ds, k) && Visited(g, all, k)
    requires forall x :: x in Within(g, tip, d) ==> x in all
    requires k < |all| ==> d < ds[k]
    ensures forall x :: x in Within(g, tip, d + 1) ==> x in all
  {
    forall x | x in ParentsOf(g, Within(g, tip, d)) ensures x in all {
      var y :| y in Within(g, tip, d) && y in g && x in g[y];
      var i :| 0 <= i < |all| && all[i] == y;
      assert AtDistance(g, tip, all[i], ds[i]);
      if d < ds[i] { WithinGrows(g, tip, d, ds[i] - 1); }
      assert ds[i] <= d;
      assert i < k;
    }
  }

  lemma StepDepths(g: Graph, tip: Id, all: seq<Id>, k: nat, ds: seq<nat>, newly: seq<Id>, ds1: seq<nat>)
    requires WalkInv(g, tip, all, k, ds) && k < |all| && all[k] in g
    requires forall x :: x in newly ==> x in g[all[k]] && x !in all
    requires ds1 == ds + seq(|newly|, i => ds[k] + 1)
    ensures Depths(g, tip, all + newly, ds1) && Layered(ds1, k + 1)
    ensures k + 1 < |ds1| ==> ds[k] <= ds1[k + 1] <= ds[k] + 1
  {
    var all1 := all + newly;
    forall i | 0 <= i < |all1| ensures AtDistance(g, tip, all1[i], ds1[i]) {
      if i < |all| {
        assert AtDistance(g, tip, all[i], ds[i]);
      } else {
        assert all1[i] in newly;
        FreshDepth(g, tip, all, k, ds, all1[i]);
      }
    }
    assert forall i :: 0 <= i < |ds1| ==> ds1[i] <= ds[k] + 1;
    assert k + 1 < |ds1| ==> ds1[k + 1] >= ds[k];
  }

  lemma StepVisited(g: Graph, all: seq<Id>, k: nat, newly: seq<Id>)
    requires Visited(g, all, k) && k < |all| && all[k] in g
    requires forall x :: x in g[all[k]] ==> x in all || x in newly
    ensures Visited(g, all + newly, k + 1)
  {
    var all1 := all + newly;
    forall i | 0 <= i < k + 1 ensures all1[i] in g && forall p :: p in g[all1[i]] ==> p in all1 {
      assert all1[i] == all[i];
    }
  }

  lemma StepKeeps(g: Graph, tip: Id, all: seq<Id>, k: nat, ds: seq<nat>, seen: set<Id>,
                  newly: seq<Id>) returns (ds1: seq<nat>)
    requires WalkInv(g, tip, all, k, ds) && k < |all| && all[k] in g
    requires seen == Elements(all) && newly == Fresh(g[all[k]], seen)
    ensures WalkInv(g, tip, all + newly, k + 1, ds1)
    ensures Elements(all + newly) == seen + Elements(g[all[k]])
  {
    FreshSpec(g[all[k]], seen);
    ds1 := ds + seq(|newly|, i => ds[k] + 1);
    StepDepths(g, tip, all, k, ds, newly, ds1);
    StepVisited(g, all, k, newly);
    StepDistinct(all, newly);
    StepNear(g, tip, all + newly, k + 1, ds1, ds[k]);
  }

  lemma StepDistinct(all: seq<Id>, newly: seq<Id>)
    requires Distinct(all) && Distinct(newly) && forall x :: x in newly ==> x !in all
    ensures Distinct(all + newly)
  {
    assert forall i :: 0 <= i < |newly| ==> newly[i] in newly;
    assert forall i :: 0 <= i < |all| ==> all[i] in all;
  }

  lemma {:induction false} StepNear(g: Graph, tip: Id, all: seq<Id>, k: nat, ds: seq<nat>, d: nat)
    requires Depths(g, tip, all, ds) && Layered(ds, k) && Visited(g, all, k)
    requires forall x :: x in Within(g, tip, d) ==> x in all
    requires k < |all| ==> d <= ds[k] <= d + 1
    ensures NearSeen(g, tip, all, ds, k)
  {
    if k < |all| && ds[k] == d + 1 { NearerVisited(g, tip, all, k, ds, d); }
  }

  lemma {:induction false} AllSeen(g: Graph, tip: Id, all: seq<Id>, n: nat)
    requires tip in all && Visited(g, all, |all|)
    ensures forall x :: x in Within(g, tip, n) ==> x in all
  {
    if n > 0 {
      AllSeen(g, tip, all, n - 1);
      forall x | x in ParentsOf(g, Within(g, tip, n - 1)) ensures x in all {
        var y :| y in Within(g, tip, n - 1) && y in g && x in g[y];
        var i :| 0 <= i < |all| && all[i] == y;
      }
    }
  }

  lemma WalkEnds(g: Graph, tip: Id, all: seq<Id>, ds: seq<nat>)
    requires WalkInv(g, tip, all, |all|, ds)
    requires all[0] == tip
    ensures Complete(g, tip, all)
  {
    forall x ensures x in all <==> Ancestor(g, tip, x) {
      if x in all {
        var i :| 0 <= i < |all| && all[i] == x;
        assert AtDistance(g, tip, all[i], ds[i]);
      }
      if Ancestor(g, tip, x) {
        var n: nat :| x in Within(g, tip, n);
        AllSeen(g, tip, all, n);
      }
    }
    forall i, j, d, e | 0 <= i < j < |all| && AtDistance(g, tip, all[i], d) &&
      AtDistance(g, tip, all[j], e) ensures d <= e {
      DistanceUnique(g, tip, all[i], d, ds[i]);
      DistanceUnique(g, tip, all[j], e, ds[j]);
    }
  }

  /** The distance from the tip never falls along the list. */
  ghost predicate NearestFirst(g: Graph, tip: Id, xs: seq<Id>) {
    forall i, j, d, e :: 0 <= i < j < |xs| && AtDistance(g, tip, xs[i], d) && AtDistance(g, tip, xs[j], e) ==> d <= e
  }

  /** The ancestors of the tip and no others, all readable, the tip first, each once, nearest first. */
  ghost predicate Complete(g: Graph, tip: Id, order: seq<Id>) {
    && (forall x :: x in order <==> Ancestor(g, tip, x))
    && (forall x :: x in order ==> x in g)
    && order != [] && order[0] == tip && Distinct(order) && NearestFirst(g, tip, order)
  }

  // ---- the walk ---------------------------------------------------------------------------------------

  /** Queue the parents not yet seen. */
  method VisitParents(ps: seq<Id>, seen0: set<Id>, queue0: seq<Id>) returns (seen: set<Id>, queue: seq<Id>)
    ensures queue == queue0 + Fresh(ps, seen0)
    ensures seen == seen0 + Elements(ps)
  {
    seen, queue := seen0, queue0;
    for i := 0 to |ps|
      invariant seen == seen0 + Elements(ps[..i])
      invariant queue + Fresh(ps[i..], seen) == queue0 + Fresh(ps, seen0)
    {
      assert ps[i..][1..] == ps[i + 1..] && ps[..i + 1] == ps[..i] + [ps[i]];
      if ps[i] !in seen {
        ghost var rest := Fresh(ps[i + 1..], seen + {ps[i]});
        assert queue + ([ps[i]] + rest) == queue + [ps[i]] + rest;
        seen := seen + {ps[i]};
        queue := queue + [ps[i]];
      }
    }
    assert ps[..|ps|] == ps && ps[|ps|..] == [];
  }

  ghost function Known(g: Graph, tip: Id): set<Id> { {tip} + g.Keys + ParentsOf(g, g.Keys) }

  lemma {:induction false} WithinKnown(g: Graph, tip: Id, n: nat)
    ensures Within(g, tip, n) <= Known(g, tip)
  {
    if n > 0 { WithinKnown(g, tip, n - 1); }
  }

  lemma QueueKnown(g: Graph, tip: Id, all: seq<Id>, k: nat, ds: seq<nat>)
    requires WalkInv(g, tip, all, k, ds)
    ensures |all| <= |Known(g, tip)|
  {
    forall i | 0 <= i < |all| ensures all[i] in Known(g, tip) {
      assert AtDistance(g, tip, all[i], ds[i]);
      WithinKnown(g, tip, ds[i]);
    }
    DistinctFits(all, Known(g, tip));
  }

  lemma {:induction false} DistinctFits(xs: seq<Id>, s: set<Id>)
    requires Distinct(xs) && forall i :: 0 <= i < |xs| ==> xs[i] in s
    ensures |xs| <= |s|
    decreases |xs|
  {
    if xs != [] {
      var last := xs[|xs| - 1];
      DistinctFits(xs[..|xs| - 1], s - {last});
    }
  }

  lemma MoveHead(order: seq<Id>, queue: seq<Id>, newly: seq<Id>)
    requires queue != []
    ensures order + queue + newly == (order + [queue[0]]) + (queue[1..] + newly)
    ensures (order + queue + newly)[0] == (order + queue)[0]
  {
  }

  /** The loop's variables, with the depths of what has been seen. */
  ghost predicate Walking(g: Graph, tip: Id, seen: set<Id>, order: seq<Id>, queue: seq<Id>, ds: seq<nat>) {
    var all := order + queue;
    WalkInv(g, tip, all, |order|, ds) && all != [] && all[0] == tip && seen == Elements(all)
  }

  lemma WalkStarts(g: Graph, tip: Id)
    ensures Walking(g, tip, {tip}, [], [tip], [0])
  {
    assert [] + [tip] == [tip];
  }

  lemma WalkAdvances(g: Graph, tip: Id, seen: set<Id>, order: seq<Id>, queue: seq<Id>,
                     ds: seq<nat>) returns (ds1: seq<nat>)
    requires Walking(g, tip, seen, order, queue, ds) && queue != [] && queue[0] in g
    ensures Walking(g, tip, seen + Elements(g[queue[0]]), order + [queue[0]], queue[1..] + Fresh(g[queue[0]], seen),
      ds1)
  {
    var all, id := order + queue, queue[0];
    assert all[|order|] == id;
    var newly := Fresh(g[id], seen);
    ds1 := StepKeeps(g, tip, all, |order|, ds, seen, newly);
    MoveHead(order, queue, newly);
    WalkingOn(g, tip, seen + Elements(g[id]), all + newly, order + [id], queue[1..] + newly, ds1);
  }

  lemma WalkingOn(g: Graph, tip: Id, seen: set<Id>, all: seq<Id>, order: seq<Id>, queue: seq<Id>, ds: seq<nat>)
    requires all == order + queue && all != [] && all[0] == tip && seen == Elements(all)
    requires WalkInv(g, tip, all, |order|, ds)
    ensures Walking(g, tip, seen, order, queue, ds)
  {
  }

  lemma HeadIsAncestor(g: Graph, tip: Id, seen: set<Id>, order: seq<Id>, queue: seq<Id>, ds: seq<nat>)
    requires Walking(g, tip, seen, order, queue, ds) && queue != []
    ensures Ancestor(g, tip, queue[0]) && |order| < |Known(g, tip)|
  {
    QueueKnown(g, tip, order + queue, |order|, ds);
    assert AtDistance(g, tip, (order + queue)[|order|], ds[|order|]);
  }

  lemma WalkDone(g: Graph, tip: Id, seen: set<Id>, order: seq<Id>, ds: seq<nat>)
    requires Walking(g, tip, seen, order, [], ds)
    ensures Complete(g, tip, order)
  {
    assert order + [] == order;
    WalkEnds(g, tip, order, ds);
  }

  /** For every finite graph the walk ends. It fails exactly when some ancestor cannot be read;
      otherwise it returns every ancestor of the tip, the tip first, each once, in order of
      distance. */
  method HistoryAllParents(g: Graph, tip: Id) returns (r: Walk)
    ensures r.Walked? ==> Complete(g, tip, r.order)
    ensures r.Missing? ==> Ancestor(g, tip, r.id) && r.id !in g
  {
    var seen: set<Id>, queue, order: seq<Id> := {tip}, [tip], [];
    ghost var ds: seq<nat> := [0];
    WalkStarts(g, tip);
    while queue != []
      invariant Walking(g, tip, seen, order, queue, ds)
      decreases |Known(g, tip)| - |order|
    {
      HeadIsAncestor(g, tip, seen, order, queue, ds);
      var id := queue[0];
      if id !in g { return Missing(id); }
      ds := WalkAdvances(g, tip, seen, order, queue, ds);
      order := order + [id];
      seen, queue := VisitParents(g[id], seen, queue[1..]);
    }
    WalkDone(g, tip, seen, order, ds);
    return Walked(order);
  }

  // ---- the tallies ------------------------------------------------------------------------------------

  datatype Status = Trusted | Untrusted | Invalid | Unsigned
  datatype Tally = Tally(trusted: nat, untrusted: nat, invalid: nat, unsigned: nat)
  datatype Verdict = Verified(tally: Tally, commits: nat) | Failed

  /** `x` is an ancestor whose signature has this status. */
  ghost function WithStatus(order: seq<Id>, status: Id -> Option<Status>, s: Status): set<Id> {
    set x | x in order && status(x) == Some(s)
  }

  /** The counters are 32 bits wide and wrap. */
  ghost predicate TallyIs(t: Tally, order: seq<Id>, status: Id -> Option<Status>) {
    && t.trusted == |WithStatus(order, status, Trusted)| % U32
    && t.untrusted == |WithStatus(order, status, Untrusted)| % U32
    && t.invalid == |WithStatus(order, status, Invalid)| % U32
    && t.unsigned == |WithStatus(order, status, Unsigned)| % U32
  }

  lemma WithStatusStep(order: seq<Id>, x: Id, status: Id -> Option<Status>, s: Status)
    requires x !in order
    ensures |WithStatus(order + [x], status, s)| ==
      |WithStatus(order, status, s)| + (if status(x) == Some(s) then 1 else 0)
  {
    var before, after := WithStatus(order, status, s), WithStatus(order + [x], status, s);
    assert after == if status(x) == Some(s) then before + {x} else before;
  }

  /** Every commit has one status: the four classes split the walk. */
  lemma {:induction false} StatusesSplit(order: seq<Id>, status: Id -> Option<Status>)
    requires Distinct(order) && forall i :: 0 <= i < |order| ==> status(order[i]).Some?
    ensures |WithStatus(order, status, Trusted)| + |WithStatus(order, status, Untrusted)|
          + |WithStatus(order, status, Invalid)| + |WithStatus(order, status, Unsigned)| == |order|
    decreases |order|
  {
    if order != [] {
      var before, x := order[..|order| - 1], order[|order| - 1];
      assert order == before + [x] && x == order[|order| - 1] && x !in before;
      StatusesSplit(before, status);
      var st := status(x).value;
      assert st == Trusted || st == Untrusted || st == Invalid || st == Unsigned;
      WithStatusStep(before, x, status, Trusted);
      WithStatusStep(before, x, status, Untrusted);
      WithStatusStep(before, x, status, Invalid);
      WithStatusStep(before, x, status, Unsigned);
    } else {
      assert forall s :: WithStatus(order, status, s) == {};
    }
  }

  /** One more commit of status `s`. */
  function Counted(t: Tally, s: Status): Tally {
    match s
    case Trusted => t.(trusted := (t.trusted + 1) % U32)
    case Untrusted => t.(untrusted := (t.untrusted + 1) % U32)
    case Invalid => t.(invalid := (t.invalid + 1) % U32)
    case Unsigned => t.(unsigned := (t.unsigned + 1) % U32)
  }

  lemma WrappedAdd(n: nat)
    ensures (n % U32 + 1) % U32 == (n + 1) % U32
  {
    assert n == U32 * (n / U32) + n % U32;
  }

  lemma CountedIs(t: Tally, order: seq<Id>, x: Id, status: Id -> Option<Status>)
    requires TallyIs(t, order, status) && x !in order && status(x).Some?
    ensures TallyIs(Counted(t, status(x).value), order + [x], status)
  {
    WithStatusStep(order, x, status, Trusted);
    WithStatusStep(order, x, status, Untrusted);
    WithStatusStep(order, x, status, Invalid);
    WithStatusStep(order, x, status, Unsigned);
    WrappedAdd(|WithStatus(order, status, status(x).value)|);
  }

  lemma NoneCounted(status: Id -> Option<Status>)
    ensures TallyIs(Tally(0, 0, 0, 0), [], status)
  {
    assert forall s :: WithStatus([], status, s) == {};
  }

  /** Count every commit of the walk under its status; stop at a status that cannot be read. */
  method TallyHistory(order: seq<Id>, status: Id -> Option<Status>) returns (r: Verdict)
    requires Distinct(order)
    ensures r.Failed? <==> exists i :: 0 <= i < |order| && status(order[i]) == None
    ensures r.Verified? ==> TallyIs(r.tally, order, status) && r.commits == |order|
  {
    var t := Tally(0, 0, 0, 0);
    NoneCounted(status);
    for i := 0 to |order|
      invariant TallyIs(t, order[..i], status)
      invariant forall j :: 0 <= j < i ==> status(order[j]).Some?
    {
      var st := status(order[i]);
      if st.None? { return Failed; }
      assert order[..i + 1] == order[..i] + [order[i]];
      CountedIs(t, order[..i], order[i], status);
      t := Counted(t, st.value);
    }
    assert order[..|order|] == order;
    return Verified(t, |order|);
  }

  lemma TallySums(t: Tally, order: seq<Id>, status: Id -> Option<Status>)
    requires Distinct(order) && TallyIs(t, order, status) && |order| < U32
    requires forall i :: 0 <= i < |order| ==> status(order[i]).Some?
    ensures t.trusted + t.untrusted + t.invalid + t.unsigned == |order|
  {
    StatusesSplit(order, status);
    SmallSum(|WithStatus(order, status, Trusted)|, |WithStatus(order, status, Untrusted)|,
             |WithStatus(order, status, Invalid)|, |WithStatus(order, status, Unsigned)|);
  }

  lemma SmallSum(a: nat, b: nat, c: nat, d: nat)
    requires a + b + c + d < U32
    ensures a % U32 == a && b % U32 == b && c % U32 == c && d % U32 == d
  {
  }

  lemma {:induction false} DistinctCount(xs: seq<Id>, s: set<Id>)
    requires Distinct(xs) && forall x :: x in xs <==> x in s
    ensures |s| == |xs|
    decreases |xs|
  {
    if xs == [] {
      assert s == {};
    } else {
      var last := xs[|xs| - 1];
      assert forall x :: x in xs <==> x == last || x in xs[..|xs| - 1];
      DistinctCount(xs[..|xs| - 1], s - {last});
    }
  }

  ghost function Ancestors(g: Graph, tip: Id): (s: set<Id>)
    ensures forall x :: x in s <==> Ancestor(g, tip, x)
  {
    forall x, n: nat | x in Within(g, tip, n) ensures x in Known(g, tip) { WithinKnown(g, tip, n); }
    set x | x in Known(g, tip) && Ancestor(g, tip, x)
  }

  /** The ancestors whose signature has this status. */
  ghost function AncestorsWith(g: Graph, tip: Id, status: Id -> Option<Status>, s: Status): set<Id> {
    set x | x in Ancestors(g, tip) && status(x) == Some(s)
  }

  lemma SameClass(g: Graph, tip: Id, order: seq<Id>, status: Id -> Option<Status>, s: Status)
    requires forall x :: x in order <==> Ancestor(g, tip, x)
    ensures WithStatus(order, status, s) == AncestorsWith(g, tip, status, s)
  {
  }

  /** The whole of `verify`'s count: it fails exactly when an ancestor or a signature status
      cannot be read; otherwise each tally counts the ancestors of its status, modulo 2^32, and
      for fewer than 2^32 ancestors the four sum to their number. */
  method Verify(g: Graph, tip: Id, status: Id -> Option<Status>) returns (r: Verdict)
    ensures r.Failed? <==> exists x :: x in Ancestors(g, tip) && (x !in g || status(x) == None)
    ensures r.Verified? ==> r.commits == |Ancestors(g, tip)|
    ensures r.Verified? ==>
      && r.tally.trusted == |AncestorsWith(g, tip, status, Trusted)| % U32
      && r.tally.untrusted == |AncestorsWith(g, tip, status, Untrusted)| % U32
      && r.tally.invalid == |AncestorsWith(g, tip, status, Invalid)| % U32
      && r.tally.unsigned == |AncestorsWith(g, tip, status, Unsigned)| % U32
    ensures r.Verified? && |Ancestors(g, tip)| < U32 ==>
      r.tally.trusted + r.tally.untrusted + r.tally.invalid + r.tally.unsigned == |Ancestors(g, tip)|
  {
    var walk := HistoryAllParents(g, tip);
    if walk.Missing? {
      assert walk.id in Ancestors(g, tip);
      return Failed;
    }
    var order := walk.order;
    DistinctCount(order, Ancestors(g, tip));
    r := TallyHistory(order, status);
    if r.Failed? {
      var i :| 0 <= i < |order| && status(order[i]) == None;
      assert order[i] in Ancestors(g, tip);
    } else {
      assert forall i :: 0 <= i < |order| ==> status(order[i]).Some?;
      if |order| < U32 { TallySums(r.tally, order, status); }
      SameClass(g, tip, order, status, Trusted);
      SameClass(g, tip, order, status, Untrusted);
      SameClass(g, tip, order, status, Invalid);
      SameClass(g, tip, order, status, Unsigned);
    }
  }
}
