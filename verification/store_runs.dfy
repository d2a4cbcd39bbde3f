/** Whole runs of the store against a plain set of ids, each with its bytes. */
module StoreRuns {
  import opened Octets
  import opened Sorting
  import opened Objects
  import opened Pack
  import opened StoreSpec
  import opened StoreInv
  import opened StoreEvict
  import opened StoreLaws
  import opened StorePacks

  /** An operation; `order` is how the directory listing came out at the reload it causes. */
  datatype Op =
    | PutOp(o: Object)
    | GetOp(id: Id)
    | DeleteOp(id: Id)
    | WritePackOp(ids: seq<Id>, order: seq<Id>)
    | DeletePackOp(name: Id, order: seq<Id>)

  ghost function Step(p: Prims, st: State, op: Op): State {
    match op
    case PutOp(o) => Put(p, st, o).0
    case GetOp(id) => Get(p, st, id).0
    case DeleteOp(id) => Delete(st, id)
    case WritePackOp(ids, order) => WritePack(p, st, ids, order).0
    case DeletePackOp(name, order) => DeletePack(st, name, order).0
  }

  /** What the caller and the world provide: objects of the world, no id packed twice, and
      directory listings that are complete. */
  ghost predicate Admissible(w: World, st: State, op: Op)
    requires Inv(w, st)
  {
    match op
    case PutOp(o) => Lawful(w, o)
    case GetOp(_) => true
    case DeleteOp(_) => true
    case WritePackOp(ids, order) =>
      && Distinct(ids)
      && (GetAll(w.p, st, ids).1.Ok? && st.backend == Persistent ==>
            BodyKnown(w, GetAll(w.p, st, ids).1.value)
            && Lists(order, st.disk.idxs[w.p.hash(PackBytes(w.p, GetAll(w.p, st, ids).1.value)) := []]))
    case DeletePackOp(name, order) => Lists(order, st.disk.idxs - {name})
  }

  lemma StepKeeps(w: World, st: State, op: Op)
    requires Inv(w, st) && Admissible(w, st, op)
    ensures Inv(w, Step(w.p, st, op))
  {
    match op
    case PutOp(o) => PutKeeps(w, st, o);
    case GetOp(id) => GetKeeps(w, st, id);
    case DeleteOp(id) => DeleteKeeps(w, st, id);
    case WritePackOp(ids, order) => WritePackKeeps(w, st, ids, order);
    case DeletePackOp(name, order) => DeletePackKeeps(w, st, name, order);
  }

  ghost function Run(p: Prims, st: State, ops: seq<Op>): State
    decreases |ops|
  {
    if ops == [] then st else Run(p, Step(p, st, ops[0]), ops[1..])
  }

  ghost predicate AdmissibleRun(w: World, st: State, ops: seq<Op>)
    requires Inv(w, st)
    decreases |ops|
  {
    ops == [] || (Admissible(w, st, ops[0]) &&
      (StepKeeps(w, st, ops[0]); AdmissibleRun(w, Step(w.p, st, ops[0]), ops[1..])))
  }

  /** Every state a run reaches satisfies the invariant, error returns included: byte counts
      exact and within budget, stamps distinct, every copy readable under its id. */
  lemma {:induction false} RunKeeps(w: World, st: State, ops: seq<Op>)
    requires Inv(w, st) && AdmissibleRun(w, st, ops)
    ensures Inv(w, Run(w.p, st, ops))
    decreases |ops|
  {
    if ops != [] {
      StepKeeps(w, st, ops[0]);
      RunKeeps(w, Step(w.p, st, ops[0]), ops[1..]);
    }
  }

  // ---- what one step keeps ----------------------------------------------------------------

  /** The step does not remove `id`: a delete of another id or of a packed one, a deleted pack
      that leaves `id` loose or in another pack. */
  ghost predicate Spares(st: State, op: Op, id: Id) {
    match op
    case DeleteOp(x) => x != id || id in st.packIndex
    case DeletePackOp(name, _) =>
      st.backend == Persistent ==>
        id in st.disk.loose || ServedWithout(st, name, id)
    case _ => true
  }

  /** The step may add `id`. */
  ghost predicate Adds(p: Prims, op: Op, id: Id) { op.PutOp? && ObjectId(p, op.o) == id }

  lemma MakeResidentKeeps(w: World, st: State, id: Id, o: Object, size: nat, x: Id)
    requires Inv(w, st) && id !in st.resident && ResidentOk(w, id, Resident(o, size, 0))
    ensures Safe(st, x) ==> Safe(MakeResident(st, id, o, size).0, x)
    ensures Contains(MakeResident(st, id, o, size).0, x) ==>
      Contains(st, x) || (x == id && MakeResident(st, id, o, size).1.None?)
    ensures MakeResident(st, id, o, size).1.None? ==> id in MakeResident(st, id, o, size).0.resident
    ensures MakeResident(st, id, o, size).0.backend == st.backend
  {
    var room := InsertKeeps(w, st, id, o, size);
    EvictionLosesNothing(st, room, id, x);
  }

  lemma RehydrateSafe(w: World, st: State, id: Id, o: Object, size: nat, x: Id)
    requires Inv(w, st) && id !in st.resident && ResidentOk(w, id, Resident(o, size, 0)) && Contains(st, id)
    ensures Safe(st, x) ==> Safe(Rehydrate(st, id, o, size).0, x)
    ensures Contains(Rehydrate(st, id, o, size).0, x) ==> Contains(st, x)
  {
    MakeResidentKeeps(w, st, id, o, size, x);
    var room := InsertKeeps(w, st, id, o, size);
  }

  lemma GetSafe(w: World, st: State, id: Id, x: Id)
    requires Inv(w, st)
    ensures Safe(st, x) ==> Safe(Get(w.p, st, id).0, x)
    ensures Contains(Get(w.p, st, id).0, x) ==> Contains(st, x)
  {
    if id in st.resident {
    } else if id in st.spilled {
      ReadSpillOk(w, st, id);
      RehydrateSafe(w, st, id, Blob(st.disk.spill[id]), st.spilled[id], x);
    } else if st.backend == Persistent && (id in st.disk.loose || id in st.packIndex) {
      ReadDurableOk(w, st, id);
      var o := ReadDurable(w.p, st, id).value;
      RehydrateSafe(w, st, id, o, BlobSize(o), x);
    }
  }

  lemma {:induction false} GetAllSafe(w: World, st: State, ids: seq<Id>, x: Id)
    requires Inv(w, st)
    ensures Safe(st, x) ==> Safe(GetAll(w.p, st, ids).0, x)
    ensures Contains(GetAll(w.p, st, ids).0, x) ==> Contains(st, x)
    ensures GetAll(w.p, st, ids).1.Ok? && x in ids ==> Contains(st, x)
    decreases |ids|
  {
    if ids != [] {
      GetSafe(w, st, ids[0], x);
      GetKeeps(w, st, ids[0]);
      var (st1, r) := Get(w.p, st, ids[0]);
      if r.Ok? { GetAllSafe(w, st1, ids[1..], x); }
      if r.Ok? && x == ids[0] { GetOkMeansPresent(w, st, x); }
    }
  }

  lemma GetOkMeansPresent(w: World, st: State, id: Id)
    requires Inv(w, st) && Get(w.p, st, id).1.Ok?
    ensures Contains(st, id)
  {
  }

  lemma PutSafe(w: World, st: State, o: Object, x: Id)
    requires Inv(w, st) && Lawful(w, o)
    ensures Safe(st, x) ==> Safe(Put(w.p, st, o).0, x)
    ensures Contains(Put(w.p, st, o).0, x) ==>
              Contains(st, x) || (x == ObjectId(w.p, o) && (Put(w.p, st, o).1.Ok? || st.backend == Persistent))
    ensures Put(w.p, st, o).1.Ok? || st.backend == Persistent ==> Contains(Put(w.p, st, o).0, ObjectId(w.p, o))
    ensures st.backend == Persistent && ObjectId(w.p, o) !in st.resident ==> Safe(Put(w.p, st, o).0, ObjectId(w.p, o))
    ensures Put(w.p, st, o).0.backend == st.backend
  {
    var id := ObjectId(w.p, o);
    if !(id in st.resident || id in st.spilled || (st.backend == Persistent && id in st.disk.loose)) {
      assert ResidentOk(w, id, Resident(o, BlobSize(o), 0));
      if st.backend == Persistent {
        PutLooseSafe(w, st, o, x);
      } else {
        MakeResidentKeeps(w, st, id, o, BlobSize(o), x);
      }
    }
  }

  /** A put that reports success has made the object durable exactly when it was, or was not in
      memory: an object found in memory is not written. */
  lemma PutDurableIff(w: World, st: State, o: Object)
    requires Inv(w, st) && Lawful(w, o) && Put(w.p, st, o).1.Ok?
    ensures Safe(Put(w.p, st, o).0, ObjectId(w.p, o)) <==>
              Safe(st, ObjectId(w.p, o)) || ObjectId(w.p, o) !in st.resident
  {
    PutSafe(w, st, o, ObjectId(w.p, o));
  }

  lemma PutLooseSafe(w: World, st: State, o: Object, x: Id)
    requires Inv(w, st) && Lawful(w, o) && st.backend == Persistent
    requires ObjectId(w.p, o) !in st.resident && ResidentOk(w, ObjectId(w.p, o), Resident(o, BlobSize(o), 0))
    ensures var id := ObjectId(w.p, o);
            var st1 := st.(disk := st.disk.(loose := st.disk.loose[id := w.p.zip(w.p.encode(o))]));
            var st2 := MakeResident(st1, id, o, BlobSize(o)).0;
            (Safe(st, x) ==> Safe(st2, x)) && (Contains(st2, x) ==> Contains(st, x) || x == id)
            && Safe(st2, id) && st2.backend == st.backend
  {
    var id := ObjectId(w.p, o);
    PutLooseKeeps(w, st, o);
    var st1 := st.(disk := st.disk.(loose := st.disk.loose[id := w.p.zip(w.p.encode(o))]));
    MakeResidentKeeps(w, st1, id, o, BlobSize(o), x);
    MakeResidentKeeps(w, st1, id, o, BlobSize(o), id);
    assert Safe(st1, id) && (Safe(st, x) ==> Safe(st1, x));
  }

  // ---- packs keep their ids ----------------------------------------------------------------------

  lemma {:induction false} SortedIds(rows: seq<IndexEntry>, id: Id)
    ensures (exists k :: 0 <= k < |Sort(rows, EntryId)| && Sort(rows, EntryId)[k].id == id)
            <==> exists i :: 0 <= i < |rows| && rows[i].id == id
  {
    var es := Sort(rows, EntryId);
    if k :| 0 <= k < |es| && es[k].id == id { SortHolds(rows, EntryId, es[k]); }
    if i :| 0 <= i < |rows| && rows[i].id == id { SortHolds(rows, EntryId, rows[i]); }
  }

  lemma ListedAreItems(w: World, items: seq<Item>, id: Id)
    requires WorldOk(w) && ItemsOk(w, items)
    ensures id in ListedIds(PackIndex(w.p, items)) <==> exists i :: 0 <= i < |items| && items[i].id == id
  {
    IndexInverts(w.p, items);
    SortedIds(Entries(w.p, items), id);
    assert forall i :: 0 <= i < |items| ==> Entries(w.p, items)[i].id == items[i].id;
  }

  /** A pack body determines the ids in it. */
  lemma BodyDeterminesIds(w: World, xs: seq<Item>, ys: seq<Item>)
    requires WorldOk(w) && ItemsOk(w, xs) && ItemsOk(w, ys) && PackBytes(w.p, xs) == PackBytes(w.p, ys)
    ensures |xs| == |ys| && forall i :: 0 <= i < |xs| ==> xs[i].id == ys[i].id
  {
    ScanPackLaw(w.p, xs, None);
    ScanPackLaw(w.p, ys, None);
    forall i | 0 <= i < |xs| && i < |ys| ensures xs[i].id == ys[i].id {
      assert LoadedItem(w.p, xs[i]) == LoadedItem(w.p, ys[i]);
    }
  }

  ghost predicate HasItem(items: seq<Item>, id: Id) { exists i :: 0 <= i < |items| && items[i].id == id }

  lemma SameNameSameIds(w: World, idx: Bytes, items: seq<Item>, id: Id)
    requires WorldOk(w) && ItemsOk(w, items) && IndexFileOk(w, w.p.hash(PackBytes(w.p, items)), idx)
    ensures id in ListedIds(idx) <==> HasItem(items, id)
  {
    var ys: seq<Item> :| ItemsOk(w, ys) && idx == PackIndex(w.p, ys) &&
      w.p.hash(PackBytes(w.p, ys)) == w.p.hash(PackBytes(w.p, items));
    ListedAreItems(w, ys, id);
    BodyDeterminesIds(w, items, ys);
    if HasItem(ys, id) {
      var i :| 0 <= i < |ys| && ys[i].id == id;
      assert items[i].id == id;
    }
  }

  /** Writing a pack keeps every id the directory served, and serves its items besides. */
  lemma AddedPackServes(w: World, packs: map<Id, Bytes>, idxs: map<Id, Bytes>, items: seq<Item>, name: Id, id: Id)
    requires WorldOk(w) && DirOk(w, packs, idxs) && ItemsOk(w, items) && name == w.p.hash(PackBytes(w.p, items))
    ensures Serves(packs[name := PackBytes(w.p, items)], idxs[name := PackIndex(w.p, items)], id)
            <==> Serves(packs, idxs, id) || HasItem(items, id)
  {
    ListedAreItems(w, items, id);
    if name in idxs { SameNameSameIds(w, idxs[name], items, id); }
    ServesAfterWrite(packs, idxs, name, PackBytes(w.p, items), PackIndex(w.p, items), id);
  }

  lemma ServesAfterWrite(packs: map<Id, Bytes>, idxs: map<Id, Bytes>, name: Id, pack: Bytes, idx: Bytes, id: Id)
    requires name in idxs ==> (id in ListedIds(idxs[name]) <==> id in ListedIds(idx))
    ensures Serves(packs[name := pack], idxs[name := idx], id) <==> Serves(packs, idxs, id) || id in ListedIds(idx)
  {
    var packs1, idxs1 := packs[name := pack], idxs[name := idx];
    if Serves(packs, idxs, id) {
      var n :| n in idxs && n in packs && id in ListedIds(idxs[n]);
      assert n in idxs1 && n in packs1;
    }
    if id in ListedIds(idx) { assert name in idxs1 && name in packs1; }
    if Serves(packs1, idxs1, id) {
      var n :| n in idxs1 && n in packs1 && id in ListedIds(idxs1[n]);
      if n != name { assert n in idxs && n in packs; }
    }
  }

  /** After writing a pack the index holds what it held and the pack's items. */
  lemma WrittenPackIndexed(w: World, st: State, items: seq<Item>, name: Id, order: seq<Id>, st1: State, x: Id)
    requires Inv(w, st) && st.backend == Persistent && ItemsOk(w, items) && name == w.p.hash(PackBytes(w.p, items))
    requires Lists(order, st.disk.idxs[name := []])
    requires st1 == st.(disk := st.disk.(packs := st.disk.packs[name := PackBytes(w.p, items)],
                                         idxs := st.disk.idxs[name := PackIndex(w.p, items)]))
    ensures Reload(st1, order).0 == st1.(packIndex := Reload(st1, order).0.packIndex)
    ensures x in Reload(st1, order).0.packIndex <==> x in st.packIndex || HasItem(items, x)
  {
    AddedPackOk(w, st.disk.packs, st.disk.idxs, items);
    AddedPackServes(w, st.disk.packs, st.disk.idxs, items, name, x);
    ReloadKeeps(w, st, st1.disk.packs, st1.disk.idxs, order, st1);
    var st2 := Reload(st1, order).0;
    assert IndexCurrent(st2.packIndex, st1.disk.packs, st1.disk.idxs);
    assert IndexCurrent(st.packIndex, st.disk.packs, st.disk.idxs);
  }

  lemma WritePackSafe(w: World, st: State, ids: seq<Id>, order: seq<Id>, x: Id)
    requires Inv(w, st) && Admissible(w, st, WritePackOp(ids, order))
    ensures Safe(st, x) ==> Safe(WritePack(w.p, st, ids, order).0, x)
    ensures Contains(WritePack(w.p, st, ids, order).0, x) ==> Contains(st, x)
  {
    GetAllKeeps(w, st, ids);
    GetAllSafe(w, st, ids, x);
    var (st1, got) := GetAll(w.p, st, ids);
    if got.Ok? && st.backend == Persistent {
      var items := got.value;
      PackableItems(w, items);
      assert ItemsOk(w, items);
      var name := w.p.hash(PackBytes(w.p, items));
      var st2 := st1.(disk := st1.disk.(packs := st1.disk.packs[name := PackBytes(w.p, items)],
                                        idxs := st1.disk.idxs[name := PackIndex(w.p, items)]));
      WrittenPackIndexed(w, st1, items, name, order, st2, x);
      if HasItem(items, x) {
        var i :| 0 <= i < |items| && items[i].id == x;
        assert ids[i] == x;
      }
    }
  }

  // ---- every step, every run ----------------------------------------------------------------------

  /** No step loses a safe object it spares, and only a put adds one. */
  lemma StepSafe(w: World, st: State, op: Op, x: Id)
    requires Inv(w, st) && Admissible(w, st, op)
    ensures Safe(st, x) && Spares(st, op, x) ==> Safe(Step(w.p, st, op), x)
    ensures Contains(Step(w.p, st, op), x) ==> Contains(st, x) || Adds(w.p, op, x)
  {
    match op
    case PutOp(o) => PutSafe(w, st, o, x);
    case GetOp(id) => GetSafe(w, st, id, x);
    case DeleteOp(id) => DeleteSafe(st, id, x);
    case WritePackOp(ids, order) => WritePackSafe(w, st, ids, order, x);
    case DeletePackOp(name, order) => DeletePackSafe(w, st, name, order, x);
  }

  lemma DeleteSafe(st: State, id: Id, x: Id)
    ensures Safe(st, x) && Spares(st, DeleteOp(id), x) ==> Safe(Delete(st, id), x)
    ensures Contains(Delete(st, id), x) ==> Contains(st, x)
    ensures Contains(Delete(st, id), x) ==> x != id || x in st.packIndex
  {
  }

  /** `id` has a pack other than `name`. */
  ghost predicate ServedWithout(st: State, name: Id, id: Id) {
    Serves(st.disk.packs - {name}, st.disk.idxs - {name}, id)
  }

  lemma DeletedPackIndexed(w: World, st: State, name: Id, order: seq<Id>, x: Id)
    requires Inv(w, st) && st.backend == Persistent && Lists(order, st.disk.idxs - {name})
    ensures x in DeletePack(st, name, order).0.packIndex <==> ServedWithout(st, name, x)
    ensures ServedWithout(st, name, x) ==> x in st.packIndex
  {
    DeletePackKeeps(w, st, name, order);
    var st1 := DeletePack(st, name, order).0;
    assert IndexCurrent(st1.packIndex, st.disk.packs - {name}, st.disk.idxs - {name});
    if ServedWithout(st, name, x) {
      var n :| n in st.disk.idxs - {name} && n in st.disk.packs - {name} && x in ListedIds((st.disk.idxs - {name})[n]);
      assert n in st.disk.idxs && n in st.disk.packs;
      assert Serves(st.disk.packs, st.disk.idxs, x);
      assert IndexCurrent(st.packIndex, st.disk.packs, st.disk.idxs);
    }
  }

  lemma DeletePackSafe(w: World, st: State, name: Id, order: seq<Id>, x: Id)
    requires Inv(w, st) && Lists(order, st.disk.idxs - {name})
    ensures Safe(st, x) && Spares(st, DeletePackOp(name, order), x) ==> Safe(DeletePack(st, name, order).0, x)
    ensures Contains(DeletePack(st, name, order).0, x) ==> Contains(st, x)
  {
    DeletePackKeeps(w, st, name, order);
    var st1 := DeletePack(st, name, order).0;
    if st.backend == Persistent {
      DeletedPackIndexed(w, st, name, order, x);
      Reindexed(st, st1, x);
      assert Spares(st, DeletePackOp(name, order), x) ==> x in st.disk.loose || x in st1.packIndex;
    } else {
      assert st1 == st;
    }
  }

  /** Only the index changed. */
  lemma Reindexed(st: State, st1: State, x: Id)
    requires st1 == st.(disk := st.disk.(packs := st1.disk.packs, idxs := st1.disk.idxs), packIndex := st1.packIndex)
    requires x in st1.packIndex ==> x in st.packIndex
    ensures Contains(st1, x) ==> Contains(st, x)
    ensures x in st.disk.loose || x in st1.packIndex ==> Safe(st1, x)
  {
  }

  ghost predicate SparesRun(p: Prims, st: State, ops: seq<Op>, id: Id)
    decreases |ops|
  {
    ops == [] || (Spares(st, ops[0], id) && SparesRun(p, Step(p, st, ops[0]), ops[1..], id))
  }

  /** Over every run: an object that is safe and never removed stays, whatever is evicted,
      spilled, reloaded or packed, and `get` then returns it with the same encoding. */
  lemma {:induction false} NothingLost(w: World, st: State, ops: seq<Op>, id: Id)
    requires Inv(w, st) && AdmissibleRun(w, st, ops) && Safe(st, id) && SparesRun(w.p, st, ops, id)
    ensures Inv(w, Run(w.p, st, ops)) && Safe(Run(w.p, st, ops), id)
    ensures Get(w.p, Run(w.p, st, ops), id).1.Ok? ==>
              Encodes(w, w.p.encode(Get(w.p, Run(w.p, st, ops), id).1.value), id)
    decreases |ops|
  {
    if ops == [] {
      GetFrame(w, st, id);
    } else {
      StepKeeps(w, st, ops[0]);
      StepSafe(w, st, ops[0], id);
      NothingLost(w, Step(w.p, st, ops[0]), ops[1..], id);
    }
  }

  /** Over every run: an id nobody puts never appears. */
  lemma {:induction false} NothingAppears(w: World, st: State, ops: seq<Op>, id: Id)
    requires Inv(w, st) && AdmissibleRun(w, st, ops) && !Contains(st, id)
    requires forall i :: 0 <= i < |ops| ==> !Adds(w.p, ops[i], id)
    ensures !Contains(Run(w.p, st, ops), id)
    decreases |ops|
  {
    if ops != [] {
      StepKeeps(w, st, ops[0]);
      StepSafe(w, st, ops[0], id);
      NothingAppears(w, Step(w.p, st, ops[0]), ops[1..], id);
    }
  }

  // ---- the store as a plain set of ids ---------------------------------------------------------------

  /** Every resident object of a durable store has a copy on disk. */
  ghost predicate AllDurable(st: State) { forall id :: id in st.resident ==> Safe(st, id) }

  /** Whether a plain set of ids would hold `x` after the step. */
  ghost predicate PlainAfter(p: Prims, st: State, op: Op, x: Id) {
    match op
    case PutOp(o) => Contains(st, x) || (x == ObjectId(p, o) && (Put(p, st, o).1.Ok? || st.backend == Persistent))
    case GetOp(_) => Contains(st, x)
    case WritePackOp(_, _) => Contains(st, x)
    case DeleteOp(_) => Contains(st, x) && Spares(st, op, x)
    case DeletePackOp(_, _) => Contains(st, x) && Spares(st, op, x)
  }

  ghost predicate PlainStep(p: Prims, st: State, op: Op, st1: State) {
    forall x :: Contains(st1, x) <==> PlainAfter(p, st, op, x)
  }

  lemma PutRefines(w: World, st: State, o: Object)
    requires Inv(w, st) && Lawful(w, o) && AllDurable(st)
    ensures AllDurable(Put(w.p, st, o).0) && PlainStep(w.p, st, PutOp(o), Put(w.p, st, o).0)
  {
    var st1 := Put(w.p, st, o).0;
    forall x ensures (Contains(st1, x) <==> PlainAfter(w.p, st, PutOp(o), x)) && (Contains(st1, x) ==> Safe(st1, x)) {
      PutSafe(w, st, o, x);
      PutAt(w.p, st, st1, o, x);
    }
  }

  lemma PutAt(p: Prims, st: State, st1: State, o: Object, x: Id)
    requires AllDurable(st) && (Safe(st, x) ==> Safe(st1, x)) && st1.backend == st.backend
    requires st.backend == Persistent ==> st.spilled == map[]
    requires Contains(st1, x) ==> PlainAfter(p, st, PutOp(o), x)
    requires Put(p, st, o).1.Ok? || st.backend == Persistent ==> Contains(st1, ObjectId(p, o))
    requires st.backend == Persistent && ObjectId(p, o) !in st.resident ==> Safe(st1, ObjectId(p, o))
    ensures Contains(st1, x) <==> PlainAfter(p, st, PutOp(o), x)
    ensures Contains(st1, x) ==> Safe(st1, x)
  {
    assert Contains(st, x) ==> Safe(st, x);
  }

  lemma DeletePackRefines(w: World, st: State, name: Id, order: seq<Id>)
    requires Inv(w, st) && AllDurable(st) && Lists(order, st.disk.idxs - {name})
    ensures AllDurable(DeletePack(st, name, order).0) <==>
              forall id :: id in st.resident ==> Spares(st, DeletePackOp(name, order), id)
    ensures AllDurable(DeletePack(st, name, order).0) ==>
              PlainStep(w.p, st, DeletePackOp(name, order), DeletePack(st, name, order).0)
  {
    DeletePackKeeps(w, st, name, order);
    if st.backend == Persistent {
      var st1 := DeletePack(st, name, order).0;
      forall x
        ensures x in st1.packIndex <==> ServedWithout(st, name, x)
        ensures ServedWithout(st, name, x) ==> x in st.packIndex
      {
        DeletedPackIndexed(w, st, name, order, x);
      }
      ReindexedRefines(w.p, st, st1, name, order);
    }
  }

  lemma ReindexedRefines(p: Prims, st: State, st1: State, name: Id, order: seq<Id>)
    requires st.backend == Persistent && AllDurable(st) && st.spilled == map[]
    requires st1 == st.(disk := st.disk.(packs := st1.disk.packs, idxs := st1.disk.idxs), packIndex := st1.packIndex)
    requires forall x :: x in st1.packIndex <==> ServedWithout(st, name, x)
    requires forall x :: ServedWithout(st, name, x) ==> x in st.packIndex
    ensures AllDurable(st1) <==> forall id :: id in st.resident ==> Spares(st, DeletePackOp(name, order), id)
    ensures AllDurable(st1) ==> PlainStep(p, st, DeletePackOp(name, order), st1)
  {
    forall x | x in st.resident ensures Safe(st1, x) <==> Spares(st, DeletePackOp(name, order), x) { }
    if AllDurable(st1) {
      forall x ensures Contains(st1, x) <==> PlainAfter(p, st, DeletePackOp(name, order), x) { }
    }
  }

  /** An operation that removes nothing. */
  lemma ReadingRefines(w: World, st: State, op: Op, st1: State)
    requires Inv(w, st) && AllDurable(st) && (op.GetOp? || op.WritePackOp?)
    requires forall x :: Safe(st, x) ==> Safe(st1, x)
    requires forall x :: Contains(st1, x) ==> Contains(st, x)
    ensures AllDurable(st1) && PlainStep(w.p, st, op, st1)
  {
    forall x ensures (Contains(st1, x) <==> PlainAfter(w.p, st, op, x)) && (Contains(st1, x) ==> Safe(st1, x)) {
      assert Contains(st, x) ==> Safe(st, x);
    }
  }

  lemma DeleteRefines(p: Prims, st: State, id: Id)
    requires AllDurable(st)
    ensures AllDurable(Delete(st, id)) && PlainStep(p, st, DeleteOp(id), Delete(st, id))
  {
    var st1 := Delete(st, id);
    forall x ensures (Contains(st1, x) <==> PlainAfter(p, st, DeleteOp(id), x)) &&
      (x in st1.resident ==> Safe(st1, x)) {
      DeleteSafe(st, id, x);
    }
  }

  /** A durable store refines the plain set step by step and stays durable; deleting a pack
      keeps it durable exactly when no resident object loses its last copy on disk. */
  lemma StepRefines(w: World, st: State, op: Op)
    requires Inv(w, st) && Admissible(w, st, op) && AllDurable(st)
    ensures AllDurable(Step(w.p, st, op)) <==>
              (op.DeletePackOp? ==> forall id :: id in st.resident ==> Spares(st, op, id))
    ensures AllDurable(Step(w.p, st, op)) ==> PlainStep(w.p, st, op, Step(w.p, st, op))
  {
    match op
    case PutOp(o) => PutRefines(w, st, o);
    case DeleteOp(id) => DeleteRefines(w.p, st, id);
    case DeletePackOp(name, order) => DeletePackRefines(w, st, name, order);
    case GetOp(id) =>
      forall x
        ensures Safe(st, x) ==> Safe(Get(w.p, st, id).0, x)
        ensures Contains(Get(w.p, st, id).0, x) ==> Contains(st, x)
      {
        GetSafe(w, st, id, x);
      }
      ReadingRefines(w, st, op, Get(w.p, st, id).0);
    case WritePackOp(ids, order) =>
      forall x
        ensures Safe(st, x) ==> Safe(WritePack(w.p, st, ids, order).0, x)
        ensures Contains(WritePack(w.p, st, ids, order).0, x) ==> Contains(st, x)
      {
        WritePackSafe(w, st, ids, order, x);
      }
      ReadingRefines(w, st, op, WritePack(w.p, st, ids, order).0);
  }

  /** Each pack deletion of the run leaves the store durable. */
  ghost predicate DurableRun(p: Prims, st: State, ops: seq<Op>)
    decreases |ops|
  {
    ops == [] ||
    ((ops[0].DeletePackOp? ==> forall id :: id in st.resident ==> Spares(st, ops[0], id))
     && DurableRun(p, Step(p, st, ops[0]), ops[1..]))
  }

  /** Each step of the run changes the set of ids held as a plain set changes, given what the step
      returns and which ids it spares. */
  ghost predicate PlainRun(p: Prims, st: State, ops: seq<Op>)
    decreases |ops|
  {
    ops == [] || (PlainStep(p, st, ops[0], Step(p, st, ops[0])) && PlainRun(p, Step(p, st, ops[0]), ops[1..]))
  }

  /** Every run of a store, from any durable state (the empty one included), is a run of the
      plain set: each step adds and removes exactly what it says. */
  lemma {:induction false} RunRefines(w: World, st: State, ops: seq<Op>)
    requires Inv(w, st) && AllDurable(st) && AdmissibleRun(w, st, ops) && DurableRun(w.p, st, ops)
    ensures PlainRun(w.p, st, ops) && AllDurable(Run(w.p, st, ops))
    decreases |ops|
  {
    if ops != [] {
      StepKeeps(w, st, ops[0]);
      StepRefines(w, st, ops[0]);
      RunRefines(w, Step(w.p, st, ops[0]), ops[1..]);
    }
  }

  /** `all_ids` lists exactly the ids `contains` accepts, and `get` answers "not found" for
      exactly the others. */
  lemma IdsAgree(w: World, st: State, id: Id)
    requires Inv(w, st) && (st.backend == SpillTo ==> PlainBlobs(st))
    ensures id in AllIds(st) <==> Contains(st, id)
    ensures id in AllIds(st) <==> Get(w.p, st, id).1 != Err(NotFound)
  {
    GetReturns(w, st, id);
  }
}
