/** Least recently used, without the clock: eviction takes the blobs whose last use in the sequence of
    operations is oldest. A use is a get that answers, or a put that takes the object in. */
module StoreRecency {
  import opened Octets
  import opened Objects
  import opened Pack
  import opened StoreSpec
  import opened StoreInv
  import opened StoreEvict
  import opened StoreLaws
  import opened StorePacks
  import opened StoreRuns

  // ---- uses --------------------------------------------------------------------------------------

  /** A put of this id finds the object and touches nothing. */
  predicate Held(st: State, id: Id) {
    id in st.resident || id in st.spilled || (st.backend == Persistent && id in st.disk.loose)
  }

  /** The reads of a pack write that answer: all, or those before the first that fails. */
  ghost function ReadIds(p: Prims, st: State, ids: seq<Id>): seq<Id>
    decreases |ids|
  {
    if ids == [] || Get(p, st, ids[0]).1.Err? then []
    else [ids[0]] + ReadIds(p, Get(p, st, ids[0]).0, ids[1..])
  }

  /** The ids an operation uses, in order. */
  ghost function UsedBy(p: Prims, st: State, op: Op): seq<Id> {
    match op
    case PutOp(o) => if Put(p, st, o).1.Ok? && !Held(st, ObjectId(p, o)) then [ObjectId(p, o)] else []
    case GetOp(id) => if Get(p, st, id).1.Ok? then [id] else []
    case WritePackOp(ids, _) => ReadIds(p, st, ids)
    case _ => []
  }

  ghost function Used(p: Prims, st: State, ops: seq<Op>): seq<Id>
    decreases |ops|
  {
    if ops == [] then [] else UsedBy(p, st, ops[0]) + Used(p, Step(p, st, ops[0]), ops[1..])
  }

  /** The last use of `id` is the `n`-th. */
  ghost predicate LastAt(us: seq<Id>, id: Id, n: nat) {
    1 <= n <= |us| && us[n - 1] == id && forall j :: n <= j < |us| ==> us[j] != id
  }

  /** `a` was last used before `b` was. */
  ghost predicate UsedBefore(us: seq<Id>, a: Id, b: Id) {
    exists i: nat, j: nat :: LastAt(us, a, i) && LastAt(us, b, j) && i < j
  }

  // ---- one operation -------------------------------------------------------------------------------

  ghost predicate Others(st: State, st1: State, id: Id) {
    forall x :: x in st1.resident && x != id ==> x in st.resident && st1.resident[x] == st.resident[x]
  }

  /** The operation used `id`: it is in memory, stamped later than every other. */
  ghost predicate Uses(st: State, st1: State, id: Id) {
    && st1.clock == st.clock + 1 && id in st1.resident && st1.resident[id].lastUsed == st1.clock && Others(st, st1, id)
  }

  /** The operation used nothing: at most some residents are gone. */
  ghost predicate Leaves(st: State, st1: State) {
    st1.clock == st.clock && forall x :: x in st1.resident ==> x in st.resident && st1.resident[x] == st.resident[x]
  }

  /** Whatever was evicted was stamped before every sized resident that stayed. */
  ghost predicate ColdGone(st: State, st1: State, id: Id) { ColdPrefix(st.resident, st1.resident, id) }

  lemma MakeResidentUses(w: World, st: State, id: Id, o: Object, size: nat)
    requires Inv(w, st) && id !in st.resident && ResidentOk(w, id, Resident(o, size, 0))
    ensures var (st1, e) := MakeResident(st, id, o, size);
      (if e.None? then Uses(st, st1, id) else Leaves(st, st1)) && ColdGone(st, st1, id)
  {
    var room := InsertKeeps(w, st, id, o, size);
    if size > 0 { EvictsColdestFirst(st, size, id); }
    var (st1, e) := MakeResident(st, id, o, size);
    if e.None? { AdmitUses(st, room, id, o, size); } else { assert st1 == room; }
  }

  lemma AdmitUses(st: State, room: State, id: Id, o: Object, size: nat)
    requires OnlyEvicts(st, room, id) && id !in st.resident
    ensures Uses(st, Admit(room, id, o, size), id)
  {
  }

  /** A get that answers is a use, and no other get is. */
  lemma GetUses(w: World, st: State, id: Id)
    requires Inv(w, st)
    ensures var (st1, r) := Get(w.p, st, id);
      (if r.Ok? then Uses(st, st1, id) else Leaves(st, st1)) && ColdGone(st, st1, id)
  {
    if id in st.resident {
    } else if id in st.spilled {
      ReadSpillOk(w, st, id);
      MakeResidentUses(w, st, id, Blob(st.disk.spill[id]), st.spilled[id]);
    } else if st.backend == Persistent && (id in st.disk.loose || id in st.packIndex) {
      ReadDurableOk(w, st, id);
      var o := ReadDurable(w.p, st, id).value;
      MakeResidentUses(w, st, id, o, BlobSize(o));
    }
  }

  /** A put that succeeds is a use exactly when the object was not held before. */
  lemma PutUses(w: World, st: State, o: Object)
    requires Inv(w, st) && Lawful(w, o)
    ensures var (st1, r, id) := (Put(w.p, st, o).0, Put(w.p, st, o).1, ObjectId(w.p, o));
      (if r.Ok? && !Held(st, id) then Uses(st, st1, id) else Leaves(st, st1)) && ColdGone(st, st1, id)
  {
    var id := ObjectId(w.p, o);
    if !Held(st, id) {
      if st.backend == Persistent {
        PutLooseKeeps(w, st, o);
        MakeResidentUses(w, st.(disk := st.disk.(loose := st.disk.loose[id := w.p.zip(w.p.encode(o))])), id, o,
          BlobSize(o));
      } else {
        MakeResidentUses(w, st, id, o, BlobSize(o));
      }
    }
  }

  /** Only the bytes of blobs and sealed objects are charged, so no other object is ever evicted. */
  lemma StructureStays(w: World, st: State, op: Op, x: Id)
    requires Inv(w, st) && (op.GetOp? || (op.PutOp? && Lawful(w, op.o)))
    requires x in st.resident && !st.resident[x].obj.Blob? && !st.resident[x].obj.Sealed?
    ensures x in Step(w.p, st, op).resident
  {
    assert ResidentOk(w, x, st.resident[x]);
    if op.GetOp? { GetGone(w, st, op.id, x); } else { PutGone(w, st, op.o, x); }
  }

  lemma MakeResidentGone(w: World, st: State, id: Id, o: Object, size: nat, x: Id)
    requires Inv(w, st) && id !in st.resident && ResidentOk(w, id, Resident(o, size, 0)) && x in st.resident
    ensures x !in MakeResident(st, id, o, size).0.resident ==> st.resident[x].blobSize > 0
  {
    var room := InsertKeeps(w, st, id, o, size);
  }

  lemma GetGone(w: World, st: State, id: Id, x: Id)
    requires Inv(w, st) && x in st.resident
    ensures x !in Get(w.p, st, id).0.resident ==> st.resident[x].blobSize > 0
  {
    if id in st.resident {
    } else if id in st.spilled {
      ReadSpillOk(w, st, id);
      MakeResidentGone(w, st, id, Blob(st.disk.spill[id]), st.spilled[id], x);
    } else if st.backend == Persistent && (id in st.disk.loose || id in st.packIndex) {
      ReadDurableOk(w, st, id);
      var o := ReadDurable(w.p, st, id).value;
      MakeResidentGone(w, st, id, o, BlobSize(o), x);
    }
  }

  lemma PutGone(w: World, st: State, o: Object, x: Id)
    requires Inv(w, st) && Lawful(w, o) && x in st.resident
    ensures x !in Put(w.p, st, o).0.resident ==> st.resident[x].blobSize > 0
  {
    var id := ObjectId(w.p, o);
    if !Held(st, id) {
      if st.backend == Persistent {
        PutLooseKeeps(w, st, o);
        MakeResidentGone(w, st.(disk := st.disk.(loose := st.disk.loose[id := w.p.zip(w.p.encode(o))])), id, o,
          BlobSize(o), x);
      } else {
        MakeResidentGone(w, st, id, o, BlobSize(o), x);
      }
    }
  }

  // ---- counters --------------------------------------------------------------------------------------

  lemma MakeResidentCounts(st: State, id: Id, o: Object, size: nat)
    requires id !in st.resident
    ensures Counted(st, MakeResident(st, id, o, size).0)
  {
    if size == 0 {
      AdmitCounts(st, st, id, o, 0);
    } else {
      EvictionsCounted(st, size, id);
      AdmitCounts(st, EnsureCapacity(st, size, id).0, id, o, size);
    }
  }

  lemma AdmitCounts(st: State, room: State, id: Id, o: Object, size: nat)
    requires id !in st.resident && (room == st || Counted(st, room))
    ensures Counted(st, Admit(room, id, o, size))
  {
    assert Gone(st, Admit(room, id, o, size)) == Gone(st, room);
    if room == st { assert Gone(st, room) == {}; }
  }

  lemma SameCounts(st: State, st1: State)
    requires st1.resident.Keys == st.resident.Keys
    ensures |Gone(st, st1)| == 0
  {
    assert Gone(st, st1) == {};
  }

  lemma RehydrateCounts(st: State, id: Id, o: Object, size: nat)
    requires id !in st.resident
    ensures var (st1, r) := Rehydrate(st, id, o, size);
      && st1.rehydrations == st.rehydrations + (if r.Ok? then 1 else 0)
      && st1.evictions == st.evictions + |Gone(st, st1)|
  {
    MakeResidentCounts(st, id, o, size);
    var st1, st2 := MakeResident(st, id, o, size).0, Rehydrate(st, id, o, size).0;
    assert Gone(st, st2) == Gone(st, st1);
  }

  /** A get counts as a rehydration exactly when it answers from outside memory, and the evictions counted are
      the residents gone. */
  lemma GetCounts(p: Prims, st: State, id: Id)
    ensures var (st1, r) := Get(p, st, id);
      && st1.rehydrations == st.rehydrations + (if r.Ok? && id !in st.resident then 1 else 0)
      && st1.evictions == st.evictions + |Gone(st, st1)|
  {
    SameCounts(st, st);
    if id in st.resident {
      SameCounts(st, Get(p, st, id).0);
    } else if id in st.spilled && ReadSpill(p, st, id).Ok? {
      RehydrateCounts(st, id, ReadSpill(p, st, id).value, st.spilled[id]);
    } else if id !in st.spilled && st.backend == Persistent && ReadDurable(p, st, id).Ok? {
      RehydrateCounts(st, id, ReadDurable(p, st, id).value, BlobSize(ReadDurable(p, st, id).value));
    }
  }

  // ---- the clock counts the uses --------------------------------------------------------------------

  /** The clock is the number of uses, and each resident's stamp the number of its last one. */
  ghost predicate Timed(st: State, us: seq<Id>) {
    && st.clock == |us|
    && forall id {:trigger LastAt(us, id, st.resident[id].lastUsed)} ::
      id in st.resident ==> LastAt(us, id, st.resident[id].lastUsed)
  }

  lemma LaterUse(us: seq<Id>, id: Id, k: nat, more: Id)
    requires LastAt(us, id, k) && more != id
    ensures LastAt(us + [more], id, k)
  {
  }

  lemma UseTimes(st: State, st1: State, us: seq<Id>, id: Id)
    requires Timed(st, us) && Uses(st, st1, id)
    ensures Timed(st1, us + [id])
  {
    forall x | x in st1.resident ensures LastAt(us + [id], x, st1.resident[x].lastUsed) {
      if x != id {
        assert LastAt(us, x, st.resident[x].lastUsed);
        LaterUse(us, x, st.resident[x].lastUsed, id);
      }
    }
  }

  lemma LeaveTimes(st: State, st1: State, us: seq<Id>)
    requires Timed(st, us) && Leaves(st, st1)
    ensures Timed(st1, us)
  {
    forall x | x in st1.resident ensures LastAt(us, x, st1.resident[x].lastUsed) {
      assert LastAt(us, x, st.resident[x].lastUsed);
    }
  }

  lemma GetTimes(w: World, st: State, us: seq<Id>, id: Id)
    requires Inv(w, st) && Timed(st, us)
    ensures Timed(Get(w.p, st, id).0, us + UsedBy(w.p, st, GetOp(id)))
  {
    GetUses(w, st, id);
    assert us + [] == us;
    if Get(w.p, st, id).1.Ok? { UseTimes(st, Get(w.p, st, id).0, us, id); }
      else { LeaveTimes(st, Get(w.p, st, id).0, us); }
  }

  lemma OneRead(w: World, st: State, us: seq<Id>, id: Id)
    requires Inv(w, st) && Timed(st, us)
    ensures var (st1, r) := Get(w.p, st, id);
      Inv(w, st1) && Timed(st1, if r.Ok? then us + [id] else us)
  {
    GetTimes(w, st, us, id);
    GetKeeps(w, st, id);
    assert us + [] == us;
  }

  lemma {:induction false} ReadsTime(w: World, st: State, us: seq<Id>, ids: seq<Id>)
    requires Inv(w, st) && Timed(st, us)
    ensures Timed(GetAll(w.p, st, ids).0, us + ReadIds(w.p, st, ids))
    decreases |ids|
  {
    GlueUses(us, [], []);
    if ids != [] {
      OneRead(w, st, us, ids[0]);
      var (st1, r) := Get(w.p, st, ids[0]);
      if r.Ok? {
        ReadsTime(w, st1, us + [ids[0]], ids[1..]);
        GlueUses(us, [ids[0]], ReadIds(w.p, st1, ids[1..]));
      }
    }
  }

  lemma StepTimes(w: World, st: State, us: seq<Id>, op: Op)
    requires Inv(w, st) && Admissible(w, st, op) && Timed(st, us)
    ensures Timed(Step(w.p, st, op), us + UsedBy(w.p, st, op))
  {
    assert us + [] == us;
    var st1 := Step(w.p, st, op);
    match op
    case PutOp(o) =>
      PutUses(w, st, o);
      if UsedBy(w.p, st, op) == [] { LeaveTimes(st, st1, us); } else { UseTimes(st, st1, us, ObjectId(w.p, o)); }
    case GetOp(id) => GetTimes(w, st, us, id);
    case WritePackOp(ids, order) =>
      ReadsTime(w, st, us, ids);
      LeaveTimes(GetAll(w.p, st, ids).0, st1, us + ReadIds(w.p, st, ids));
    case _ => LeaveTimes(st, st1, us);
  }

  lemma {:induction false} FirstTimes(w: World, st: State, us: seq<Id>, ops: seq<Op>)
    requires Inv(w, st) && AdmissibleRun(w, st, ops) && Timed(st, us) && ops != []
    ensures var st1 := Step(w.p, st, ops[0]);
      Inv(w, st1) && AdmissibleRun(w, st1, ops[1..]) && Timed(st1, us + UsedBy(w.p, st, ops[0]))
  {
    StepTimes(w, st, us, ops[0]);
    StepKeeps(w, st, ops[0]);
  }

  lemma GlueUses(us: seq<Id>, vs: seq<Id>, more: seq<Id>)
    ensures us + vs + more == us + (vs + more) && us + [] == us
  {
  }

  lemma {:induction false} RunTimes(w: World, st: State, us: seq<Id>, ops: seq<Op>)
    requires Inv(w, st) && AdmissibleRun(w, st, ops) && Timed(st, us)
    ensures Timed(Run(w.p, st, ops), us + Used(w.p, st, ops))
    decreases |ops|
  {
    GlueUses(us, [], []);
    if ops != [] {
      FirstTimes(w, st, us, ops);
      var st1, vs := Step(w.p, st, ops[0]), UsedBy(w.p, st, ops[0]);
      RunTimes(w, st1, us + vs, ops[1..]);
      GlueUses(us, vs, Used(w.p, st1, ops[1..]));
    }
  }

  lemma {:induction false} EmptyTimes(w: World, budget: nat, backend: Backend, ops: seq<Op>)
    requires Inv(w, Empty(budget, backend)) && AdmissibleRun(w, Empty(budget, backend), ops)
    ensures Inv(w, Run(w.p, Empty(budget, backend), ops))
    ensures Timed(Run(w.p, Empty(budget, backend), ops), Used(w.p, Empty(budget, backend), ops))
  {
    var st, us := Empty(budget, backend), Used(w.p, Empty(budget, backend), ops);
    EmptyInv(w, budget, backend);
    RunKeeps(w, st, ops);
    RunTimes(w, st, [], ops);
    assert [] + us == us;
  }

  // ---- over every run -------------------------------------------------------------------------------

  /** Over every run: of two residents, the one last used earlier has the lower stamp, and conversely. */
  lemma {:induction false} StampsAreUses(w: World, budget: nat, backend: Backend, ops: seq<Op>, a: Id, b: Id)
    requires Inv(w, Empty(budget, backend)) && AdmissibleRun(w, Empty(budget, backend), ops)
    requires a in Run(w.p, Empty(budget, backend), ops).resident && b in Run(w.p, Empty(budget, backend), ops).resident
    ensures var m := Run(w.p, Empty(budget, backend), ops).resident;
      m[a].lastUsed < m[b].lastUsed <==> UsedBefore(Used(w.p, Empty(budget, backend), ops), a, b)
  {
    EmptyTimes(w, budget, backend, ops);
    StampsOrder(Run(w.p, Empty(budget, backend), ops), Used(w.p, Empty(budget, backend), ops), a, b);
  }

  lemma StampsOrder(st: State, us: seq<Id>, a: Id, b: Id)
    requires Timed(st, us) && a in st.resident && b in st.resident
    ensures st.resident[a].lastUsed < st.resident[b].lastUsed <==> UsedBefore(us, a, b)
  {
    assert LastAt(us, a, st.resident[a].lastUsed) && LastAt(us, b, st.resident[b].lastUsed);
    if i: nat, j: nat :| LastAt(us, a, i) && LastAt(us, b, j) && i < j {
      LastOnce(us, a, i, st.resident[a].lastUsed);
      LastOnce(us, b, j, st.resident[b].lastUsed);
    }
  }

  lemma LastOnce(us: seq<Id>, id: Id, m: nat, n: nat)
    requires LastAt(us, id, m) && LastAt(us, id, n)
    ensures m == n
  {
  }

  /** Over every run, whatever operation comes next: an object it evicts was last used before every sized
      object that it leaves in memory, other than the one it brings in. */
  lemma {:induction false} EvictsLeastRecent(w: World, budget: nat, backend: Backend, ops: seq<Op>, op: Op, v: Id,
                                             s: Id)
    requires Inv(w, Empty(budget, backend)) && AdmissibleRun(w, Empty(budget, backend), ops)
    requires op.GetOp? || (op.PutOp? && Lawful(w, op.o))
    requires var (st, st1) := (Run(w.p, Empty(budget, backend), ops), Run(w.p, Empty(budget, backend), ops + [op]));
      && v in st.resident && v !in st1.resident
      && s in st.resident && s in st1.resident && BlobSize(st.resident[s].obj) > 0
    requires s != (if op.GetOp? then op.id else ObjectId(w.p, op.o))
    ensures UsedBefore(Used(w.p, Empty(budget, backend), ops), v, s)
  {
    var st := Run(w.p, Empty(budget, backend), ops);
    EmptyTimes(w, budget, backend, ops);
    RunConcat(w.p, Empty(budget, backend), ops, [op]);
    assert Run(w.p, st, [op]) == Step(w.p, st, op);
    if op.GetOp? { GetUses(w, st, op.id); } else { PutUses(w, st, op.o); }
    assert ResidentOk(w, s, st.resident[s]);
    StampsOrder(st, Used(w.p, Empty(budget, backend), ops), v, s);
  }

  lemma {:induction false} RunConcat(p: Prims, st: State, xs: seq<Op>, ys: seq<Op>)
    ensures Run(p, st, xs + ys) == Run(p, Run(p, st, xs), ys)
    decreases |xs|
  {
    if xs == [] {
      assert xs + ys == ys;
    } else {
      assert (xs + ys)[1..] == xs[1..] + ys;
      RunConcat(p, Step(p, st, xs[0]), xs[1..], ys);
    }
  }

  function Gets(ids: seq<Id>): seq<Op> { seq(|ids|, i requires 0 <= i < |ids| => GetOp(ids[i])) }

  /** The reads of a pack write are gets of its ids in order, so what is said of gets holds of each. */
  lemma {:induction false} PackReadsAreGets(p: Prims, st: State, ids: seq<Id>) returns (n: nat)
    ensures n <= |ids| && GetAll(p, st, ids).0 == Run(p, st, Gets(ids[..n]))
    ensures ReadIds(p, st, ids) == Used(p, st, Gets(ids[..n]))
    decreases |ids|
  {
    n := 0;
    if ids != [] {
      var (st1, r) := Get(p, st, ids[0]);
      var m := 0;
      if r.Ok? { m := PackReadsAreGets(p, st1, ids[1..]); }
      n := m + 1;
      var ops := Gets(ids[..n]);
      assert ops[1..] == Gets(ids[1..][..m]) && ops[0] == GetOp(ids[0]);
      if r.Err? { assert Gets(ids[1..][..0]) == []; }
    }
  }

  // ---- a put is not always a use -----------------------------------------------------------------------

  /** A put of an object in memory reports success and does not refresh it: of two objects put and the
      first put again, the first is still the one used longer ago. */
  lemma {:induction false} SecondPutIsNoUse(w: World, budget: nat, backend: Backend, a: Object, b: Object)
    requires WorldOk(w) && Lawful(w, a) && Lawful(w, b) && ObjectId(w.p, a) != ObjectId(w.p, b)
    requires BlobSize(a) + BlobSize(b) <= budget
    ensures var (st, x, y) :=
        (Run(w.p, Empty(budget, backend), [PutOp(a), PutOp(b), PutOp(a)]), ObjectId(w.p, a), ObjectId(w.p, b));
      && x in st.resident && y in st.resident
      && Used(w.p, Empty(budget, backend), [PutOp(a), PutOp(b), PutOp(a)]) == [x, y]
      && st.resident[x].lastUsed < st.resident[y].lastUsed
  {
    var s0, x, y := Empty(budget, backend), ObjectId(w.p, a), ObjectId(w.p, b);
    var s1 := Put(w.p, s0, a).0;
    RoomyPut(w.p, s0, a);
    var s2 := Put(w.p, s1, b).0;
    RoomyPut(w.p, s1, b);
    var ops := [PutOp(a), PutOp(b), PutOp(a)];
    assert ops[1..] == [PutOp(b), PutOp(a)] && ops[1..][1..] == [PutOp(a)] && ops[1..][1..][1..] == [];
    assert Step(w.p, s2, PutOp(a)) == s2 && UsedBy(w.p, s2, PutOp(a)) == [];
    assert Run(w.p, s2, ops[1..][1..]) == s2 && Run(w.p, s1, ops[1..]) == s2;
    assert Used(w.p, s2, ops[1..][1..]) == [];
    assert Used(w.p, s1, ops[1..]) == [y];
  }

  lemma {:induction false} RoomyPut(p: Prims, st: State, o: Object)
    requires !Held(st, ObjectId(p, o)) && 0 <= st.residentBytes && st.residentBytes + BlobSize(o) <= st.budget
    ensures var (st1, id) := (Put(p, st, o).0, ObjectId(p, o));
      && Put(p, st, o).1.Ok? && st1.budget == st.budget && st1.backend == st.backend && st1.spilled == st.spilled
      && st1.clock == st.clock + 1 && st1.residentBytes == st.residentBytes + BlobSize(o)
      && st1.resident == st.resident[id := Resident(o, BlobSize(o), st.clock + 1)]
      && (forall x :: x in st1.disk.loose ==> x == id || x in st.disk.loose)
  {
    var id := ObjectId(p, o);
    var st0 := if st.backend == Persistent
               then st.(disk := st.disk.(loose := st.disk.loose[id := p.zip(p.encode(o))])) else st;
    assert EnsureCapacity(st0, BlobSize(o), id) == (st0, None);
    assert MakeResident(st0, id, o, BlobSize(o)) == (Admit(st0, id, o, BlobSize(o)), None);
  }
}
