/** Eviction: it terminates, keeps the invariant and every durable object, and takes exactly
    the shortest coldest prefix. */
module StoreEvict {
  import opened Octets
  import opened Objects
  import opened Pack
  import opened StoreSpec
  import opened StoreInv

  /** `id` is in the store and, on a durable backend, has a copy on disk. */
  predicate Safe(st: State, id: Id) {
    Contains(st, id) && (st.backend == Persistent ==> id in st.disk.loose || id in st.packIndex)
  }

  /** One eviction, by the backend's rule. */
  function EvictOne(st: State, v: Id): State
    requires v in st.resident && (st.backend == SpillTo ==> st.resident[v].obj.Blob?)
  {
    if st.backend == SpillTo then SpillResident(st, v) else DropResident(st, v)
  }

  /** What eviction never touches, and what it does to the rest. */
  ghost predicate OnlyEvicts(st: State, st1: State, incoming: Id) {
    && st1.budget == st.budget && st1.backend == st.backend && st1.clock == st.clock
    && st1.packIndex == st.packIndex && st1.rehydrations == st.rehydrations
    && st1.disk.loose == st.disk.loose && st1.disk.packs == st.disk.packs && st1.disk.idxs == st.disk.idxs
    && st.disk.spill.Keys <= st1.disk.spill.Keys
    && (forall id :: id in st.disk.spill ==> st1.disk.spill[id] == st.disk.spill[id])
    && st1.resident.Keys <= st.resident.Keys
    && (forall id :: id in st1.resident ==> st1.resident[id] == st.resident[id])
    && (forall id :: id in st.resident && id !in st1.resident ==> id in Evictable(st, incoming))
    && (forall id :: id in st1.spilled <==>
      id in st.spilled || (st.backend == SpillTo && id in st.resident && id !in st1.resident))
    && (forall id :: id in st.spilled && id !in st.resident ==> st1.spilled[id] == st.spilled[id])
  }

  lemma EvictOneFrame(st: State, incoming: Id, v: Id)
    requires v in Evictable(st, incoming) && st.backend != NoSpill
    requires st.backend == SpillTo ==> st.resident[v].obj.Blob?
    ensures OnlyEvicts(st, EvictOne(st, v), incoming)
  {
  }

  lemma SpillOneOk(w: World, st: State, v: Id)
    requires WorldOk(w) && ResidentsOk(w, st.resident) && SpillsOk(w, st.disk.spill)
    requires v in st.resident && st.resident[v].obj.Blob?
    ensures SpillsOk(w, SpillResident(st, v).disk.spill)
    ensures v in SpillResident(st, v).disk.spill && |SpillResident(st, v).disk.spill[v]| == st.resident[v].blobSize
  {
    var r := st.resident[v];
    assert ResidentOk(w, v, r);
    if v in st.disk.spill {
      assert SpillOk(w, v, st.disk.spill[v]);
      assert w.p.encode(r.obj) == w.p.encode(Blob(st.disk.spill[v]));
    }
  }

  lemma ShrinkResident(w: World, m: map<Id, Resident>, v: Id, clock: nat)
    requires WorldOk(w) && ResidentsOk(w, m) && Stamped(m, clock)
    ensures ResidentsOk(w, m - {v}) && Stamped(m - {v}, clock)
  {
  }

  /** Removing a resident copy, whoever removes it. */
  lemma RemoveKeeps(w: World, st: State, v: Id, evictions: nat)
    requires Inv(w, st) && v in st.resident
    ensures Inv(w, st.(resident := st.resident - {v}, residentBytes := st.residentBytes - st.resident[v].blobSize,
                       evictions := evictions))
  {
    TotalRemove(st.resident, v);
    ShrinkResident(w, st.resident, v, st.clock);
  }

  lemma SpillKeeps(w: World, st: State, v: Id)
    requires Inv(w, st) && st.backend == SpillTo && v in st.resident && st.resident[v].obj.Blob? &&
      st.resident[v].blobSize > 0
    ensures Inv(w, SpillResident(st, v))
  {
    RemoveKeeps(w, st, v, st.evictions + 1);
    SpillOneOk(w, st, v);
    TotalRemove(st.resident, v);
    var st1 := SpillResident(st, v);
    assert st1.resident.Keys == st.resident.Keys - {v} && st1.spilled.Keys == st.spilled.Keys + {v};
    assert SpillsPlaced(st1.spilled, st1.disk.spill, st1.budget);
  }

  lemma EvictOneKeeps(w: World, st: State, incoming: Id, v: Id)
    requires Inv(w, st) && v in Evictable(st, incoming) && st.backend != NoSpill
    requires st.backend == SpillTo ==> st.resident[v].obj.Blob?
    ensures Inv(w, EvictOne(st, v)) && OnlyEvicts(st, EvictOne(st, v), incoming)
    ensures EvictOne(st, v).residentBytes == st.residentBytes - st.resident[v].blobSize
    ensures EvictOne(st, v).resident == st.resident - {v} && |EvictOne(st, v).resident| < |st.resident|
  {
    assert (st.resident - {v}).Keys == st.resident.Keys - {v};
    EvictOneFrame(st, incoming, v);
    if st.backend == SpillTo { SpillKeeps(w, st, v); } else { RemoveKeeps(w, st, v, st.evictions + 1); }
  }

  lemma OnlyEvictsTrans(a: State, b: State, c: State, incoming: Id)
    requires OnlyEvicts(a, b, incoming) && OnlyEvicts(b, c, incoming)
    ensures OnlyEvicts(a, c, incoming)
  {
  }

  /** Making room keeps the invariant, evicts blobs and does nothing else; success means the
      room is there. */
  lemma {:induction false} EnsureCapacityKeeps(w: World, st: State, needed: nat, incoming: Id)
    requires Inv(w, st)
    ensures Inv(w, EnsureCapacity(st, needed, incoming).0)
    ensures OnlyEvicts(st, EnsureCapacity(st, needed, incoming).0, incoming)
    ensures EnsureCapacity(st, needed, incoming).1.None? ==>
              EnsureCapacity(st, needed, incoming).0.residentBytes + needed <= st.budget
    decreases |st.resident|
  {
    if st.residentBytes + needed > st.budget && Coldest(st, incoming).Some? {
      var v := Coldest(st, incoming).value;
      if st.backend != NoSpill && (st.backend == SpillTo ==> st.resident[v].obj.Blob?) {
        var st1 := EvictOne(st, v);
        EvictOneKeeps(w, st, incoming, v);
        EnsureCapacityKeeps(w, st1, needed, incoming);
        OnlyEvictsTrans(st, st1, EnsureCapacity(st1, needed, incoming).0, incoming);
      }
    }
  }

  /** No safe object is lost to eviction, and none appears. */
  lemma EvictionLosesNothing(st: State, st1: State, incoming: Id, id: Id)
    requires OnlyEvicts(st, st1, incoming)
    requires st.backend == NoSpill ==> st1.resident == st.resident
    ensures Safe(st, id) ==> Safe(st1, id)
    ensures Contains(st1, id) ==> Contains(st, id)
  {
  }

  lemma {:induction false} NoSpillNeverEvicts(st: State, needed: nat, incoming: Id)
    requires st.backend == NoSpill
    ensures EnsureCapacity(st, needed, incoming).0 == st
    ensures EnsureCapacity(st, needed, incoming).1.None? <==> st.residentBytes + needed <= st.budget
    ensures EnsureCapacity(st, needed, incoming).1 != Some(Panic)
  {
  }

  // ---- least recently used ---------------------------------------------------------------

  /** Every evicted blob was last used before every evictable one that stays. */
  ghost predicate ColdPrefix(all: map<Id, Resident>, kept: map<Id, Resident>, incoming: Id) {
    forall v, s :: v in all && v !in kept && s in kept && s in all && all[s].blobSize > 0 && s != incoming ==>
      all[v].lastUsed < all[s].lastUsed
  }

  /** `v` is the last victim: evicted, and no evicted blob was used later. */
  ghost predicate LastVictim(all: map<Id, Resident>, kept: map<Id, Resident>, v: Id) {
    v in all && v !in kept && forall u :: u in all && u !in kept ==> all[u].lastUsed <= all[v].lastUsed
  }

  /** A step of the eviction loop, seen from outside. */
  lemma EvictsSomething(st: State, needed: nat, incoming: Id) returns (v: Id)
    requires EnsureCapacity(st, needed, incoming).0.resident != st.resident
    ensures IsColdest(st, incoming, v) && st.residentBytes + needed > st.budget
    ensures st.backend != NoSpill && (st.backend == SpillTo ==> st.resident[v].obj.Blob?)
    ensures EnsureCapacity(st, needed, incoming) == EnsureCapacity(EvictOne(st, v), needed, incoming)
    ensures EvictOne(st, v).resident == st.resident - {v} && |EvictOne(st, v).resident| < |st.resident|
    ensures EvictOne(st, v).residentBytes == st.residentBytes - st.resident[v].blobSize
    ensures EvictOne(st, v).budget == st.budget
  {
    v := Coldest(st, incoming).value;
    assert (st.resident - {v}).Keys == st.resident.Keys - {v};
  }

  ghost predicate SubMap(kept: map<Id, Resident>, all: map<Id, Resident>) {
    kept.Keys <= all.Keys && forall id :: id in kept ==> kept[id] == all[id]
  }

  /** The victims are the coldest blobs, in last-use order. */
  lemma {:induction false} EvictsColdestFirst(st: State, needed: nat, incoming: Id)
    requires Stamped(st.resident, st.clock)
    ensures SubMap(EnsureCapacity(st, needed, incoming).0.resident, st.resident)
    ensures ColdPrefix(st.resident, EnsureCapacity(st, needed, incoming).0.resident, incoming)
    ensures forall id :: id in st.resident && id !in EnsureCapacity(st, needed, incoming).0.resident ==>
              id in Evictable(st, incoming)
    decreases |st.resident|
  {
    if EnsureCapacity(st, needed, incoming).0.resident != st.resident {
      var v := EvictsSomething(st, needed, incoming);
      EvictsColdestFirst(EvictOne(st, v), needed, incoming);
      ColdestFirst(st, v, EnsureCapacity(st, needed, incoming).0.resident, incoming);
    }
  }

  /** The coldest, and then the coldest of the others. */
  lemma ColdestFirst(st: State, v: Id, kept: map<Id, Resident>, incoming: Id)
    requires Stamped(st.resident, st.clock) && IsColdest(st, incoming, v)
    requires SubMap(kept, st.resident - {v}) && ColdPrefix(st.resident - {v}, kept, incoming)
    ensures SubMap(kept, st.resident) && ColdPrefix(st.resident, kept, incoming)
  {
  }

  /** ... and no more of them than needed: with the last victim back there would be no room. */
  lemma {:induction false} EvictsNoMore(st: State, needed: nat, incoming: Id) returns (last: Id)
    requires Stamped(st.resident, st.clock) && st.residentBytes == TotalBytes(st.resident)
    requires EnsureCapacity(st, needed, incoming).0.resident != st.resident
    ensures LastVictim(st.resident, EnsureCapacity(st, needed, incoming).0.resident, last)
    ensures EnsureCapacity(st, needed, incoming).0.residentBytes + st.resident[last].blobSize + needed > st.budget
    decreases |st.resident|
  {
    var v := EvictsSomething(st, needed, incoming);
    var st1 := EvictOne(st, v);
    TotalRemove(st.resident, v);
    var kept := EnsureCapacity(st1, needed, incoming).0.resident;
    if kept == st1.resident {
      last := v;
      BooksKept(st1, needed, incoming);
    } else {
      last := EvictsNoMore(st1, needed, incoming);
      EvictsColdestFirst(st1, needed, incoming);
      assert last in Evictable(st1, incoming) && last in Evictable(st, incoming);
      LastCarries(st.resident, kept, v, last);
    }
  }

  lemma {:induction false} BooksKept(st: State, needed: nat, incoming: Id)
    requires st.residentBytes == TotalBytes(st.resident)
    ensures EnsureCapacity(st, needed, incoming).0.residentBytes
         == TotalBytes(EnsureCapacity(st, needed, incoming).0.resident)
    decreases |st.resident|
  {
    if EnsureCapacity(st, needed, incoming).0.resident != st.resident {
      var v := EvictsSomething(st, needed, incoming);
      TotalRemove(st.resident, v);
      BooksKept(EvictOne(st, v), needed, incoming);
    } else {
      UnchangedWhenSame(st, needed, incoming);
    }
  }

  function Gone(st: State, st1: State): set<Id> { st.resident.Keys - st1.resident.Keys }

  /** The eviction counter counts the residents that went; the other counter stays. */
  ghost predicate Counted(st: State, st1: State) {
    st1.rehydrations == st.rehydrations && st1.evictions == st.evictions + |Gone(st, st1)|
  }

  lemma {:induction false} EvictionsCounted(st: State, needed: nat, incoming: Id)
    ensures Counted(st, EnsureCapacity(st, needed, incoming).0)
    decreases |st.resident|
  {
    var st1 := EnsureCapacity(st, needed, incoming).0;
    if st1.resident != st.resident {
      var v := EvictsSomething(st, needed, incoming);
      EvictionsCounted(EvictOne(st, v), needed, incoming);
      KeptIsSubMap(EvictOne(st, v), needed, incoming);
      OneMoreGone(st, EvictOne(st, v), st1, v);
    } else {
      UnchangedWhenSame(st, needed, incoming);
      assert Gone(st, st1) == {};
    }
  }

  lemma OneMoreGone(st: State, mid: State, st1: State, v: Id)
    requires v in st.resident && mid.resident == st.resident - {v} && v !in st1.resident
    ensures |Gone(st, st1)| == |Gone(mid, st1)| + 1
  {
    assert Gone(st, st1) == Gone(mid, st1) + {v};
  }

  /** Without a spill directory, the bytes reported as available are all that are resident. */
  lemma {:induction false} NoSpillReports(st: State, needed: nat, incoming: Id)
    requires st.backend == NoSpill && incoming !in st.resident && st.residentBytes == TotalBytes(st.resident)
    ensures EnsureCapacity(st, needed, incoming).1
         == if st.residentBytes + needed <= st.budget then None
            else Some(BudgetExceeded(needed, st.residentBytes, st.budget))
  {
    TotalSized(st.resident);
    var sized := Restrict(st.resident, Evictable(st, incoming));
    assert sized == map id | id in st.resident && st.resident[id].blobSize > 0 :: st.resident[id];
  }

  lemma {:induction false} TotalSized(m: map<Id, Resident>)
    ensures TotalBytes(map id | id in m && m[id].blobSize > 0 :: m[id]) == TotalBytes(m)
    decreases |m|
  {
    var sized := map id | id in m && m[id].blobSize > 0 :: m[id];
    if m != map[] {
      var id :| id in m;
      var n := m - {id};
      TotalRemove(m, id);
      assert n.Keys == m.Keys - {id};
      TotalSized(n);
      var rest := map x | x in n && n[x].blobSize > 0 :: n[x];
      if m[id].blobSize > 0 {
        TotalRemove(sized, id);
        assert sized - {id} == rest;
      } else {
        assert sized == rest;
      }
    }
  }

  lemma {:induction false} UnchangedWhenSame(st: State, needed: nat, incoming: Id)
    requires EnsureCapacity(st, needed, incoming).0.resident == st.resident
    ensures EnsureCapacity(st, needed, incoming).0 == st
  {
    if st.residentBytes + needed > st.budget && Coldest(st, incoming).Some? {
      var v := Coldest(st, incoming).value;
      if st.backend != NoSpill && (st.backend == SpillTo ==> st.resident[v].obj.Blob?) {
        KeptIsSubMap(EvictOne(st, v), needed, incoming);
      }
    }
  }

  lemma {:induction false} KeptIsSubMap(st: State, needed: nat, incoming: Id)
    ensures SubMap(EnsureCapacity(st, needed, incoming).0.resident, st.resident)
    decreases |st.resident|
  {
    if EnsureCapacity(st, needed, incoming).0.resident != st.resident {
      var v := EvictsSomething(st, needed, incoming);
      KeptIsSubMap(EvictOne(st, v), needed, incoming);
    }
  }

  lemma LastCarries(all: map<Id, Resident>, kept: map<Id, Resident>, v: Id, last: Id)
    requires v in all && last in all && LastVictim(all - {v}, kept, last)
    requires all[v].lastUsed <= all[last].lastUsed
    ensures LastVictim(all, kept, last)
  {
    forall u | u in all && u !in kept ensures all[u].lastUsed <= all[last].lastUsed {
      if u != v { assert u in all - {v}; }
    }
  }

  // ---- when making room fails ----------------------------------------------------------------

  ghost predicate PlainBlobs(st: State) {
    forall id :: id in st.resident && st.resident[id].blobSize > 0 ==> st.resident[id].obj.Blob?
  }

  /** On a backend that evicts, room is made exactly when the object fits the budget at all;
      otherwise every blob is evicted first. `incoming` is never resident here. */
  lemma {:induction false} EvictionSucceedsIff(w: World, st: State, needed: nat, incoming: Id)
    requires Inv(w, st) && st.backend != NoSpill && incoming !in st.resident
    requires st.backend == SpillTo ==> PlainBlobs(st)
    ensures EnsureCapacity(st, needed, incoming).1
         == if needed <= st.budget then None else Some(BudgetExceeded(needed, 0, st.budget))
    decreases |st.resident|
  {
    if st.residentBytes + needed > st.budget {
      match Coldest(st, incoming)
      case None =>
        forall id | id in st.resident ensures st.resident[id].blobSize == 0 {
          assert id !in Evictable(st, incoming);
        }
        TotalZero(st.resident);
      case Some(v) =>
        EvictOneKeeps(w, st, incoming, v);
        EvictionSucceedsIff(w, EvictOne(st, v), needed, incoming);
    }
  }

  lemma {:induction false} TotalZero(m: map<Id, Resident>)
    requires forall id :: id in m ==> m[id].blobSize == 0
    ensures TotalBytes(m) == 0
  {
    if m != map[] {
      var id :| id in m;
      TotalRemove(m, id);
      TotalZero(m - {id});
    }
  }

  ghost function Colder(st: State, incoming: Id, s: Id): set<Id>
    requires s in st.resident
  {
    set id | id in Evictable(st, incoming) && st.resident[id].lastUsed < st.resident[s].lastUsed
  }

  /** The bytes left once everything colder than `s` is gone. */
  ghost function WithoutColder(st: State, incoming: Id, s: Id): nat
    requires s in st.resident
  {
    TotalBytes(st.resident - Colder(st, incoming, s))
  }

  /** A sealed object that eviction must reach before there is room. */
  ghost predicate SealedInTheWay(st: State, needed: nat, incoming: Id, s: Id) {
    && s in Evictable(st, incoming) && !st.resident[s].obj.Blob?
    && WithoutColder(st, incoming, s) + needed > st.budget
  }

  ghost predicate Obstructed(st: State, needed: nat, incoming: Id) {
    exists s :: SealedInTheWay(st, needed, incoming, s)
  }

  lemma RoomMeansClear(st: State, needed: nat, incoming: Id)
    requires Accounted(st.resident, st.residentBytes, st.budget) && st.residentBytes + needed <= st.budget
    ensures !Obstructed(st, needed, incoming)
  {
    forall s | s in Evictable(st, incoming) ensures !SealedInTheWay(st, needed, incoming, s) {
      TotalSubset(st.resident, st.resident - Colder(st, incoming, s));
    }
  }

  lemma ColdestObstructs(st: State, needed: nat, incoming: Id, v: Id)
    requires Accounted(st.resident, st.residentBytes, st.budget) && st.residentBytes + needed > st.budget &&
      IsColdest(st, incoming, v)
    ensures SealedInTheWay(st, needed, incoming, v) <==> !st.resident[v].obj.Blob?
  {
    assert Colder(st, incoming, v) == {};
    assert st.resident - {} == st.resident;
  }

  lemma EvictingKeepsObstruction(st: State, st1: State, needed: nat, incoming: Id, v: Id)
    requires Stamped(st.resident, st.clock) && IsColdest(st, incoming, v) && st1.resident == st.resident - {v}
    requires st1.budget == st.budget && st.resident[v].obj.Blob?
    ensures Obstructed(st, needed, incoming) <==> Obstructed(st1, needed, incoming)
  {
    forall s ensures SealedInTheWay(st, needed, incoming, s) <==> SealedInTheWay(st1, needed, incoming, s) {
      if s in Evictable(st, incoming) && s != v {
        assert s in Evictable(st1, incoming);
        assert st.resident - Colder(st, incoming, s) == st1.resident - Colder(st1, incoming, s);
      }
    }
  }

  /** Spilling aborts the program exactly when a sealed object stands in the way of the room. */
  lemma {:induction false} SpillPanicsIff(w: World, st: State, needed: nat, incoming: Id)
    requires Inv(w, st) && st.backend == SpillTo
    ensures EnsureCapacity(st, needed, incoming).1 == Some(Panic) <==> Obstructed(st, needed, incoming)
    decreases |st.resident|
  {
    if st.residentBytes + needed <= st.budget {
      RoomMeansClear(st, needed, incoming);
    } else if Coldest(st, incoming).Some? {
      var v := Coldest(st, incoming).value;
      ColdestObstructs(st, needed, incoming, v);
      if st.resident[v].obj.Blob? {
        EvictOneKeeps(w, st, incoming, v);
        SpillPanicsIff(w, EvictOne(st, v), needed, incoming);
        EvictingKeepsObstruction(st, EvictOne(st, v), needed, incoming, v);
      }
    }
  }

  lemma {:induction false} PersistentNeverPanics(st: State, needed: nat, incoming: Id)
    requires st.backend == Persistent
    ensures EnsureCapacity(st, needed, incoming).1 != Some(Panic)
    decreases |st.resident|
  {
    if st.residentBytes + needed > st.budget && Coldest(st, incoming).Some? {
      PersistentNeverPanics(DropResident(st, Coldest(st, incoming).value), needed, incoming);
    }
  }
}
