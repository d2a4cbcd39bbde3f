/** The store against a plain map: which ids are there, under which packs, with which bytes, kept
    by the operations and their outcomes alone. */
module StoreMap {
  import opened Octets
  import opened Objects
  import opened Pack
  import opened StoreSpec
  import opened StoreInv
  import opened StoreEvict
  import opened StoreLaws
  import opened StorePacks
  import opened StoreRuns

  // ---- the plain map --------------------------------------------------------------------------

  /** The ids put and not deleted, the ids of each pack, and the canonical bytes of every id. */
  datatype Plain = Plain(live: set<Id>, packs: map<Id, set<Id>>, bytes: map<Id, Bytes>)

  ghost predicate InPacks(packs: map<Id, set<Id>>, id: Id) { exists name :: name in packs && id in packs[name] }

  ghost predicate Holds(a: Plain, id: Id) { id in a.live || InPacks(a.packs, id) }

  const NOTHING := Plain({}, map[], map[])

  /** What a caller of the operation is told. */
  datatype Told = Done | Packed(name: Id) | Refused

  ghost function Tells(p: Prims, st: State, op: Op): Told {
    match op
    case PutOp(o) => if Put(p, st, o).1.Ok? then Done else Refused
    case GetOp(id) => if Get(p, st, id).1.Ok? then Done else Refused
    case DeleteOp(_) => Done
    case WritePackOp(ids, order) =>
      var r := WritePack(p, st, ids, order).1;
      if r.Ok? then Packed(r.value) else Refused
    case DeletePackOp(name, order) => if DeletePack(st, name, order).1.None? then Done else Refused
  }

  /** The map's own step. A refused put has still reached the disk of a durable store. */
  function MapStep(p: Prims, durable: bool, a: Plain, op: Op, told: Told): Plain {
    match op
    case PutOp(o) =>
      if told == Done || durable
      then a.(live := a.live + {ObjectId(p, o)}, bytes := a.bytes[ObjectId(p, o) := p.encode(o)]) else a
    case GetOp(_) => a
    case DeleteOp(id) => a.(live := a.live - {id})
    case WritePackOp(ids, _) => if told.Packed? then a.(packs := a.packs[told.name := set id | id in ids]) else a
    case DeletePackOp(name, _) => if durable then a.(packs := a.packs - {name}) else a
  }

  ghost function MapRun(p: Prims, st: State, a: Plain, ops: seq<Op>): Plain
    decreases |ops|
  {
    if ops == [] then a
    else MapRun(p, Step(p, st, ops[0]), MapNext(p, st, a, ops[0]), ops[1..])
  }

  // ---- agreement ----------------------------------------------------------------------------------

  ghost predicate PacksAgree(plain: map<Id, set<Id>>, packs: map<Id, Bytes>, idxs: map<Id, Bytes>) {
    forall name {:trigger name in plain} ::
      && (name in plain <==> name in packs && name in idxs)
      && (name in plain ==> plain[name] == ListedIds(idxs[name]))
  }

  ghost predicate DirAgrees(st: State, a: Plain) {
    if st.backend == Persistent then PacksAgree(a.packs, st.disk.packs, st.disk.idxs) else a.packs == map[]
  }

  ghost predicate SameIds(st: State, a: Plain) { forall id :: Contains(st, id) <==> Holds(a, id) }

  ghost predicate BytesKnown(w: World, a: Plain) {
    forall id {:trigger Holds(a, id)} :: Holds(a, id) ==> id in a.bytes && Encodes(w, a.bytes[id], id)
  }

  ghost predicate Agrees(w: World, st: State, a: Plain) {
    SameIds(st, a) && DirAgrees(st, a) && st.disk.loose.Keys <= a.live && BytesKnown(w, a)
  }

  /** A deleted pack holds the last disk copy of nothing that is resident, or that was put and not
      deleted since. What the map holds through that pack alone goes with it. */
  ghost predicate Covered(st: State, a: Plain, op: Op) {
    op.DeletePackOp? ==>
      forall id {:trigger Spares(st, op, id)} :: (id in st.resident || id in a.live) ==> Spares(st, op, id)
  }

  ghost predicate CoveredRun(p: Prims, st: State, a: Plain, ops: seq<Op>)
    decreases |ops|
  {
    ops == [] ||
    (Covered(st, a, ops[0]) && CoveredRun(p, Step(p, st, ops[0]), MapNext(p, st, a, ops[0]), ops[1..]))
  }

  /** The map's step with what the store tells. */
  ghost function MapNext(p: Prims, st: State, a: Plain, op: Op): Plain {
    MapStep(p, st.backend == Persistent, a, op, Tells(p, st, op))
  }

  lemma InPacksServes(plain: map<Id, set<Id>>, packs: map<Id, Bytes>, idxs: map<Id, Bytes>, id: Id)
    requires PacksAgree(plain, packs, idxs)
    ensures InPacks(plain, id) <==> Serves(packs, idxs, id)
  {
    if InPacks(plain, id) {
      var name :| name in plain && id in plain[name];
      assert name in idxs && name in packs && id in ListedIds(idxs[name]);
    }
    if Serves(packs, idxs, id) {
      var name :| name in idxs && name in packs && id in ListedIds(idxs[name]);
      assert name in plain;
    }
  }

  lemma PackedAgree(w: World, st: State, a: Plain, id: Id)
    requires Inv(w, st) && DirAgrees(st, a)
    ensures InPacks(a.packs, id) <==> id in st.packIndex
  {
    if st.backend == Persistent {
      InPacksServes(a.packs, st.disk.packs, st.disk.idxs, id);
      assert IndexCurrent(st.packIndex, st.disk.packs, st.disk.idxs);
    }
  }

  // ---- put ----------------------------------------------------------------------------------------

  lemma PutFrame(w: World, st: State, o: Object)
    requires Inv(w, st) && Lawful(w, o)
    ensures var st1 := Put(w.p, st, o).0;
      && st1.backend == st.backend && st1.budget == st.budget
      && st1.disk.packs == st.disk.packs && st1.disk.idxs == st.disk.idxs
      && st1.disk.loose.Keys <= st.disk.loose.Keys + (if st.backend == Persistent then {ObjectId(w.p, o)} else {})
  {
    var id := ObjectId(w.p, o);
    if !(id in st.resident || id in st.spilled || (st.backend == Persistent && id in st.disk.loose)) {
      assert ResidentOk(w, id, Resident(o, BlobSize(o), 0));
      if st.backend == Persistent {
        PutLooseKeeps(w, st, o);
        var room := InsertKeeps(w, st.(disk := st.disk.(loose := st.disk.loose[id := w.p.zip(w.p.encode(o))])), id,
          o, BlobSize(o));
      } else {
        var room := InsertKeeps(w, st, id, o, BlobSize(o));
      }
    }
  }

  lemma PutAgrees(w: World, st: State, a: Plain, o: Object)
    requires Inv(w, st) && Lawful(w, o) && AllDurable(st) && Agrees(w, st, a)
    ensures Agrees(w, Put(w.p, st, o).0, MapNext(w.p, st, a, PutOp(o)))
  {
    var st1 := Put(w.p, st, o).0;
    var a1 := MapNext(w.p, st, a, PutOp(o));
    PutFrame(w, st, o);
    PutRefines(w, st, o);
    forall id ensures Contains(st1, id) <==> Holds(a1, id) {
      assert Contains(st, id) <==> Holds(a, id);
      assert Contains(st1, id) <==> PlainAfter(w.p, st, PutOp(o), id);
    }
    forall id | Holds(a1, id) ensures id in a1.bytes && Encodes(w, a1.bytes[id], id) {
      if id != ObjectId(w.p, o) { assert Holds(a, id); }
    }
  }

  // ---- get, delete -----------------------------------------------------------------------------------

  lemma GetAgrees(w: World, st: State, a: Plain, id: Id)
    requires Inv(w, st) && AllDurable(st) && Agrees(w, st, a)
    ensures Agrees(w, Get(w.p, st, id).0, a)
  {
    GetFrame(w, st, id);
    StepRefines(w, st, GetOp(id));
    forall x ensures Contains(Get(w.p, st, id).0, x) <==> Holds(a, x) {
      assert Contains(st, x) <==> Holds(a, x);
      assert Contains(Get(w.p, st, id).0, x) <==> PlainAfter(w.p, st, GetOp(id), x);
    }
  }

  lemma DeleteAgrees(w: World, st: State, a: Plain, id: Id)
    requires Inv(w, st) && AllDurable(st) && Agrees(w, st, a)
    ensures Agrees(w, Delete(st, id), a.(live := a.live - {id}))
  {
    DeleteRefines(w.p, st, id);
    var a1 := a.(live := a.live - {id});
    forall x ensures Contains(Delete(st, id), x) <==> Holds(a1, x) {
      assert Contains(st, x) <==> Holds(a, x);
      assert Contains(Delete(st, id), x) <==> PlainAfter(w.p, st, DeleteOp(id), x);
      PackedAgree(w, st, a, x);
    }
    forall x | Holds(a1, x) ensures x in a1.bytes && Encodes(w, a1.bytes[x], x) { assert Holds(a, x); }
  }

  // ---- packs --------------------------------------------------------------------------------------------

  lemma WrittenAgrees(w: World, plain: map<Id, set<Id>>, packs: map<Id, Bytes>, idxs: map<Id, Bytes>,
                      items: seq<Item>, name: Id, ids: seq<Id>)
    requires WorldOk(w) && PacksAgree(plain, packs, idxs) && ItemsOk(w, items) &&
      name == w.p.hash(PackBytes(w.p, items))
    requires |ids| == |items| && forall i :: 0 <= i < |ids| ==> items[i].id == ids[i]
    ensures PacksAgree(plain[name := set id | id in ids], packs[name := PackBytes(w.p, items)],
      idxs[name := PackIndex(w.p, items)])
  {
    forall id ensures id in ids <==> id in ListedIds(PackIndex(w.p, items)) {
      ListedAreItems(w, items, id);
      if id in ids {
        var i :| 0 <= i < |ids| && ids[i] == id;
        assert items[i].id == id;
      }
    }
    assert (set id | id in ids) == ListedIds(PackIndex(w.p, items));
  }

  lemma WritePackFrame(w: World, st: State, ids: seq<Id>, order: seq<Id>, a: Plain)
    requires Inv(w, st) && Admissible(w, st, WritePackOp(ids, order)) && DirAgrees(st, a)
    ensures var st1 := WritePack(w.p, st, ids, order).0;
      && st1.backend == st.backend && st1.disk.loose == st.disk.loose
      && DirAgrees(st1, MapNext(w.p, st, a, WritePackOp(ids, order)))
  {
    GetAllKeeps(w, st, ids);
    WritePackKeeps(w, st, ids, order);
    var (st1, got) := GetAll(w.p, st, ids);
    if got.Ok? && st.backend == Persistent {
      var items := got.value;
      PackableItems(w, items);
      assert ItemsOk(w, items);
      WrittenAgrees(w, a.packs, st.disk.packs, st.disk.idxs, items, w.p.hash(PackBytes(w.p, items)), ids);
    }
  }

  lemma PackedWereThere(w: World, st: State, ids: seq<Id>, order: seq<Id>, id: Id)
    requires Inv(w, st) && Admissible(w, st, WritePackOp(ids, order)) &&
      Tells(w.p, st, WritePackOp(ids, order)).Packed? && id in ids
    ensures Contains(st, id)
  {
    GetAllSafe(w, st, ids, id);
    var i :| 0 <= i < |ids| && ids[i] == id;
  }

  lemma WritePackAgrees(w: World, st: State, a: Plain, ids: seq<Id>, order: seq<Id>)
    requires Inv(w, st) && Admissible(w, st, WritePackOp(ids, order)) && AllDurable(st) && Agrees(w, st, a)
    ensures Agrees(w, WritePack(w.p, st, ids, order).0,
                   MapNext(w.p, st, a, WritePackOp(ids, order)))
  {
    var op := WritePackOp(ids, order);
    var told := Tells(w.p, st, op);
    var a1 := MapNext(w.p, st, a, op);
    WritePackFrame(w, st, ids, order, a);
    StepRefines(w, st, op);
    forall id ensures Holds(a1, id) <==> Holds(a, id) { HoldsAfterWrite(w, st, a, ids, order, id); }
    forall id ensures Contains(Step(w.p, st, op), id) <==> Holds(a1, id) {
      assert Contains(st, id) <==> Holds(a, id);
      assert Contains(Step(w.p, st, op), id) <==> PlainAfter(w.p, st, op, id);
    }
  }

  /** A pack of objects that are there, under a name that was free or had the same ids. */
  lemma HoldsAfterWrite(w: World, st: State, a: Plain, ids: seq<Id>, order: seq<Id>, id: Id)
    requires Inv(w, st) && Admissible(w, st, WritePackOp(ids, order)) && Agrees(w, st, a)
    ensures Holds(MapNext(w.p, st, a, WritePackOp(ids, order)), id) <==> Holds(a, id)
  {
    var told := Tells(w.p, st, WritePackOp(ids, order));
    if told.Packed? {
      if id in ids { PackedWereThere(w, st, ids, order, id); }
      if told.name in a.packs && id in a.packs[told.name] { SameNamePacked(w, st, a, ids, order, id); }
      InPacksAfter(a.packs, told.name, (set x | x in ids), id);
      assert Contains(st, id) <==> Holds(a, id);
    }
  }

  lemma InPacksAfter(plain: map<Id, set<Id>>, name: Id, ids: set<Id>, id: Id)
    requires name in plain && id in plain[name] ==> id in ids
    ensures InPacks(plain[name := ids], id) <==> InPacks(plain, id) || id in ids
  {
    var plain1 := plain[name := ids];
    if id in ids { assert name in plain1; }
    if InPacks(plain1, id) && id !in ids {
      var n :| n in plain1 && id in plain1[n];
      assert n in plain && id in plain[n];
    }
    if InPacks(plain, id) && id !in ids {
      var n :| n in plain && id in plain[n];
      assert n in plain1 && id in plain1[n];
    }
  }

  lemma SameNamePacked(w: World, st: State, a: Plain, ids: seq<Id>, order: seq<Id>, id: Id)
    requires Inv(w, st) && Admissible(w, st, WritePackOp(ids, order)) && Agrees(w, st, a)
    requires Tells(w.p, st, WritePackOp(ids, order)).Packed?
    requires var name := Tells(w.p, st, WritePackOp(ids, order)).name; name in a.packs && id in a.packs[name]
    ensures id in ids
  {
    GetAllKeeps(w, st, ids);
    WritePackKeeps(w, st, ids, order);
    var items := GetAll(w.p, st, ids).1.value;
    var name := w.p.hash(PackBytes(w.p, items));
    PackableItems(w, items);
    assert IndexFileOk(w, name, st.disk.idxs[name]);
    ListedAmong(w, st.disk.idxs[name], items, ids, id);
  }

  lemma ListedAmong(w: World, idx: Bytes, items: seq<Item>, ids: seq<Id>, id: Id)
    requires WorldOk(w) && ItemsOk(w, items) && IndexFileOk(w, w.p.hash(PackBytes(w.p, items)), idx)
    requires |items| == |ids| && (forall i :: 0 <= i < |ids| ==> items[i].id == ids[i]) && id in ListedIds(idx)
    ensures id in ids
  {
    SameNameSameIds(w, idx, items, id);
    var i :| 0 <= i < |items| && items[i].id == id;
    assert ids[i] == id;
  }

  lemma DeletePackAgrees(w: World, st: State, a: Plain, name: Id, order: seq<Id>)
    requires Inv(w, st) && Lists(order, st.disk.idxs - {name}) && AllDurable(st) && Agrees(w, st, a)
    requires Covered(st, a, DeletePackOp(name, order))
    ensures Agrees(w, DeletePack(st, name, order).0,
                   if st.backend == Persistent then a.(packs := a.packs - {name}) else a)
  {
    if st.backend == Persistent {
      DeletePackIds(w, st, a, name, order);
      DeletePackFrame(w, st, a, name, order);
      FewerBytes(w, a, name);
    } else {
      DeletePackKeeps(w, st, name, order);
    }
  }

  lemma DeletePackIds(w: World, st: State, a: Plain, name: Id, order: seq<Id>)
    requires Inv(w, st) && Lists(order, st.disk.idxs - {name}) && AllDurable(st) && Agrees(w, st, a)
    requires st.backend == Persistent && Covered(st, a, DeletePackOp(name, order))
    ensures SameIds(DeletePack(st, name, order).0, a.(packs := a.packs - {name}))
  {
    var st1, a1 := DeletePack(st, name, order).0, a.(packs := a.packs - {name});
    DeletePackRefines(w, st, name, order);
    forall id ensures Contains(st1, id) <==> Holds(a1, id) {
      HoldsAfterDelete(st, a, name, order, id);
      assert Contains(st1, id) <==> PlainAfter(w.p, st, DeletePackOp(name, order), id);
    }
  }

  lemma DeletePackFrame(w: World, st: State, a: Plain, name: Id, order: seq<Id>)
    requires Inv(w, st) && Lists(order, st.disk.idxs - {name}) && st.backend == Persistent && DirAgrees(st, a)
    ensures var st1 := DeletePack(st, name, order).0;
      DirAgrees(st1, a.(packs := a.packs - {name})) && st1.disk.loose == st.disk.loose
  {
    DeletePackKeeps(w, st, name, order);
  }

  lemma FewerBytes(w: World, a: Plain, name: Id)
    requires BytesKnown(w, a)
    ensures BytesKnown(w, a.(packs := a.packs - {name}))
  {
    var a1 := a.(packs := a.packs - {name});
    forall id | Holds(a1, id) ensures id in a1.bytes && Encodes(w, a1.bytes[id], id) { FewerPacks(a, name, id); }
  }

  lemma FewerPacks(a: Plain, name: Id, id: Id)
    requires Holds(a.(packs := a.packs - {name}), id)
    ensures Holds(a, id)
  {
    if id !in a.live {
      var n :| n in a.packs - {name} && id in (a.packs - {name})[n];
      assert n in a.packs && id in a.packs[n];
    }
  }

  lemma HoldsAfterDelete(st: State, a: Plain, name: Id, order: seq<Id>, id: Id)
    requires st.backend == Persistent && SameIds(st, a) && DirAgrees(st, a) && st.disk.loose.Keys <= a.live
    requires Covered(st, a, DeletePackOp(name, order))
    ensures Holds(a.(packs := a.packs - {name}), id) <==> Contains(st, id) && Spares(st, DeletePackOp(name, order), id)
  {
    assert Contains(st, id) <==> Holds(a, id);
    InPacksServes(a.packs - {name}, st.disk.packs - {name}, st.disk.idxs - {name}, id);
    if Holds(a.(packs := a.packs - {name}), id) { FewerPacks(a, name, id); }
  }

  // ---- runs -------------------------------------------------------------------------------------------------

  lemma StepAgrees(w: World, st: State, a: Plain, op: Op)
    requires Inv(w, st) && Admissible(w, st, op) && AllDurable(st) && Covered(st, a, op) && Agrees(w, st, a)
    ensures AllDurable(Step(w.p, st, op)) && Agrees(w, Step(w.p, st, op), MapNext(w.p, st, a, op))
  {
    StepRefines(w, st, op);
    match op
    case PutOp(o) => PutAgrees(w, st, a, o);
    case GetOp(id) => GetAgrees(w, st, a, id);
    case DeleteOp(id) => DeleteAgrees(w, st, a, id);
    case WritePackOp(ids, order) => WritePackAgrees(w, st, a, ids, order);
    case DeletePackOp(name, order) => DeletePackAgrees(w, st, a, name, order);
  }

  /** The condition is exact: a step leaves the store durable and in agreement with the map exactly
      when it deletes no pack with the last disk copy of a resident or live object. */
  lemma StepAgreesIff(w: World, st: State, a: Plain, op: Op)
    requires Inv(w, st) && Admissible(w, st, op) && AllDurable(st) && Agrees(w, st, a)
    ensures AllDurable(Step(w.p, st, op)) && Agrees(w, Step(w.p, st, op), MapNext(w.p, st, a, op)) <==>
      Covered(st, a, op)
  {
    var st1, a1 := Step(w.p, st, op), MapNext(w.p, st, a, op);
    if Covered(st, a, op) {
      StepAgrees(w, st, a, op);
    } else if AllDurable(st1) && Agrees(w, st1, a1) {
      StepRefines(w, st, op);
      forall id | id in st.resident || id in a.live ensures Spares(st, op, id) { LiveSpared(w, st, a, op, id); }
    }
  }

  lemma LiveSpared(w: World, st: State, a: Plain, op: Op, id: Id)
    requires Inv(w, st) && Admissible(w, st, op) && AllDurable(st) && op.DeletePackOp?
    requires AllDurable(Step(w.p, st, op)) && Agrees(w, Step(w.p, st, op), MapNext(w.p, st, a, op))
    requires id in st.resident || id in a.live
    ensures Spares(st, op, id)
  {
    StepRefines(w, st, op);
    if id !in st.resident {
      assert Holds(MapNext(w.p, st, a, op), id);
      assert Contains(Step(w.p, st, op), id) <==> PlainAfter(w.p, st, op, id);
    }
  }

  /** Every run in which each pack deletion is covered is a run of the plain map. */
  lemma {:induction false} RunAgrees(w: World, st: State, a: Plain, ops: seq<Op>)
    requires Inv(w, st) && AllDurable(st) && Agrees(w, st, a)
    requires AdmissibleRun(w, st, ops) && CoveredRun(w.p, st, a, ops)
    ensures Inv(w, Run(w.p, st, ops)) && AllDurable(Run(w.p, st, ops))
    ensures Agrees(w, Run(w.p, st, ops), MapRun(w.p, st, a, ops))
    decreases |ops|
  {
    if ops != [] {
      StepKeeps(w, st, ops[0]);
      StepAgrees(w, st, a, ops[0]);
      RunAgrees(w, Step(w.p, st, ops[0]), MapNext(w.p, st, a, ops[0]), ops[1..]);
    }
  }

  /** After each step of the run the store is durable and agrees with the map. */
  ghost predicate AgreesThroughout(w: World, st: State, a: Plain, ops: seq<Op>)
    decreases |ops|
  {
    && AllDurable(st) && Agrees(w, st, a)
    && (ops == [] || AgreesThroughout(w, Step(w.p, st, ops[0]), MapNext(w.p, st, a, ops[0]), ops[1..]))
  }

  /** ... and only such runs are: durability or agreement is lost at the first deletion that is not. */
  lemma {:induction false} RunAgreesIff(w: World, st: State, a: Plain, ops: seq<Op>)
    requires Inv(w, st) && AllDurable(st) && Agrees(w, st, a) && AdmissibleRun(w, st, ops)
    ensures AgreesThroughout(w, st, a, ops) <==> CoveredRun(w.p, st, a, ops)
    decreases |ops|
  {
    if ops != [] {
      var st1, a1 := Step(w.p, st, ops[0]), MapNext(w.p, st, a, ops[0]);
      StepKeeps(w, st, ops[0]);
      StepAgreesIff(w, st, a, ops[0]);
      if AllDurable(st1) && Agrees(w, st1, a1) { RunAgreesIff(w, st1, a1, ops[1..]); }
    }
  }

  lemma EmptyAgrees(w: World, budget: nat, backend: Backend)
    requires WorldOk(w)
    ensures Inv(w, Empty(budget, backend)) && AllDurable(Empty(budget, backend)) &&
      Agrees(w, Empty(budget, backend), NOTHING)
  {
    EmptyInv(w, budget, backend);
  }

  /** The store is the plain map: after any such run from an empty store on any backend,
      `contains`, `all_ids` and `get` speak of exactly the ids the map holds, and `get` returns an
      object with the bytes the map has for it, whenever that object fits the budget. */
  lemma {:induction false} StoreIsMap(w: World, budget: nat, backend: Backend, ops: seq<Op>, id: Id)
    requires WorldOk(w)
    requires Inv(w, Empty(budget, backend)) && AdmissibleRun(w, Empty(budget, backend), ops)
    requires CoveredRun(w.p, Empty(budget, backend), NOTHING, ops)
    requires backend == SpillTo ==> PlainBlobs(Run(w.p, Empty(budget, backend), ops))
    ensures var st, a := Run(w.p, Empty(budget, backend), ops), MapRun(w.p, Empty(budget, backend), NOTHING, ops);
      && (Contains(st, id) <==> Holds(a, id))
      && (id in AllIds(st) <==> Holds(a, id))
      && (Get(w.p, st, id).1 == Err(NotFound) <==> !Holds(a, id))
      && (Get(w.p, st, id).1.Ok? ==> id in a.bytes && w.p.encode(Get(w.p, st, id).1.value) == a.bytes[id])
      && (Holds(a, id) ==> id in a.bytes && w.p.decode(a.bytes[id]).Some?)
      && (Holds(a, id) && BlobSize(w.p.decode(a.bytes[id]).value) <= budget ==> Get(w.p, st, id).1.Ok?)
  {
    var st0 := Empty(budget, backend);
    EmptyAgrees(w, budget, backend);
    RunAgrees(w, st0, NOTHING, ops);
    RunBackend(w, st0, ops);
    MapReads(w, Run(w.p, st0, ops), MapRun(w.p, st0, NOTHING, ops), id);
  }

  /** The bytes of an object give the size it is charged when it is read back. */
  lemma SizeFromBytes(w: World, st: State, id: Id, b: Bytes)
    requires Inv(w, st) && Contains(st, id) && Encodes(w, b, id) && w.p.decode(b).Some?
    ensures StoredSize(w, st, id) == BlobSize(w.p.decode(b).value)
  {
    if id in st.resident {
      assert ResidentOk(w, id, st.resident[id]);
    } else if id in st.spilled {
      ReadSpillOk(w, st, id);
    } else {
      ReadDurableOk(w, st, id);
    }
  }

  lemma MapReads(w: World, st: State, a: Plain, id: Id)
    requires Inv(w, st) && Agrees(w, st, a) && (st.backend == SpillTo ==> PlainBlobs(st))
    ensures Contains(st, id) <==> Holds(a, id)
    ensures id in AllIds(st) <==> Holds(a, id)
    ensures Get(w.p, st, id).1 == Err(NotFound) <==> !Holds(a, id)
    ensures Get(w.p, st, id).1.Ok? ==> id in a.bytes && w.p.encode(Get(w.p, st, id).1.value) == a.bytes[id]
    ensures Holds(a, id) ==> id in a.bytes && w.p.decode(a.bytes[id]).Some?
    ensures Holds(a, id) && BlobSize(w.p.decode(a.bytes[id]).value) <= st.budget ==> Get(w.p, st, id).1.Ok?
  {
    GetReturns(w, st, id);
    if Holds(a, id) {
      assert Canonical(w.p, a.bytes[id]);
      SizeFromBytes(w, st, id, a.bytes[id]);
    }
    assert Contains(st, id) <==> Holds(a, id);
    IdsAgree(w, st, id);
  }

  lemma StepBackend(w: World, st: State, op: Op)
    requires Inv(w, st) && Admissible(w, st, op)
    ensures Step(w.p, st, op).backend == st.backend && Step(w.p, st, op).budget == st.budget
  {
    match op
    case PutOp(o) => PutFrame(w, st, o);
    case GetOp(id) => GetFrame(w, st, id);
    case DeleteOp(_) =>
    case WritePackOp(ids, order) => GetAllKeeps(w, st, ids);
    case DeletePackOp(name, order) => DeletePackKeeps(w, st, name, order);
  }

  lemma {:induction false} RunBackend(w: World, st: State, ops: seq<Op>)
    requires Inv(w, st) && AdmissibleRun(w, st, ops)
    ensures Run(w.p, st, ops).backend == st.backend && Run(w.p, st, ops).budget == st.budget
    decreases |ops|
  {
    if ops != [] {
      StepKeeps(w, st, ops[0]);
      StepBackend(w, st, ops[0]);
      RunBackend(w, Step(w.p, st, ops[0]), ops[1..]);
    }
  }
}
