/** Runs that show where the store stops short of its promises, and one where a deleted pack takes
    its object with it as it should. */
module StoreCases {
  import opened Objects
  import opened Pack
  import opened StoreSpec
  import opened StoreInv
  import opened StoreEvict
  import opened StoreLaws
  import opened StorePacks
  import opened StoreRuns
  import opened StoreMap

  // ---- a sealed object in the way ---------------------------------------------------------------

  /** With a spill directory: put a sealed object, then a blob that fits the budget but not beside
      it. The second put aborts the program. */
  lemma SealedObjectAborts(w: World, budget: nat, sealed: Object, blob: Object)
    requires WorldOk(w) && Lawful(w, sealed) && Lawful(w, blob) && sealed.Sealed? && blob.Blob?
    requires ObjectId(w.p, sealed) != ObjectId(w.p, blob)
    requires 0 < BlobSize(sealed) <= budget && BlobSize(blob) <= budget < BlobSize(sealed) + BlobSize(blob)
    ensures var st := Put(w.p, Empty(budget, SpillTo), sealed).0;
      Put(w.p, Empty(budget, SpillTo), sealed).1.Ok? && Put(w.p, st, blob).1 == Err(Panic)
  {
    EmptyInv(w, budget, SpillTo);
    var st0 := Empty(budget, SpillTo);
    var st := Put(w.p, st0, sealed).0;
    var s, b := ObjectId(w.p, sealed), ObjectId(w.p, blob);
    PutKeeps(w, st0, sealed);
    assert st == Admit(st0, s, sealed, BlobSize(sealed));
    assert Colder(st, b, s) == {};
    assert st.resident - {} == st.resident;
    assert SealedInTheWay(st, BlobSize(blob), b, s);
    SpillPanicsIff(w, st, BlobSize(blob), b);
  }

  // ---- packed, deleted, read, unpacked -------------------------------------------------------------

  /** Put an object and pack it alone. */
  ghost function PutAndPacked(p: Prims, budget: nat, o: Object, order: seq<Id>): State {
    WritePack(p, Put(p, Empty(budget, Persistent), o).0, [ObjectId(p, o)], order).0
  }

  /** The name of the pack of one object. */
  function PackOf(p: Prims, o: Object): Id { p.hash(PackBytes(p, [Item(ObjectId(p, o), p.encode(o))])) }

  /** The object can be put, and packed alone. */
  ghost predicate CanPack(w: World, budget: nat, o: Object, order: seq<Id>) {
    && WorldOk(w) && Lawful(w, o) && BlobSize(o) <= budget && PackOf(w.p, o) in order
    && BodyKnown(w, [Item(ObjectId(w.p, o), w.p.encode(o))])
  }

  lemma PutAlone(w: World, budget: nat, o: Object)
    requires WorldOk(w) && Lawful(w, o) && BlobSize(o) <= budget
    ensures var st, id := Put(w.p, Empty(budget, Persistent), o).0, ObjectId(w.p, o);
      && Put(w.p, Empty(budget, Persistent), o).1 == Ok(id) && Inv(w, st)
      && st.backend == Persistent && st.budget == budget
      && st.resident.Keys == {id} && st.resident[id].obj == o
      && st.disk.packs == map[] && st.disk.idxs == map[] && st.disk.loose.Keys == {id}
  {
    EmptyInv(w, budget, Persistent);
    var st0, id := Empty(budget, Persistent), ObjectId(w.p, o);
    PutKeeps(w, st0, o);
    PutReturns(w, st0, o);
    PutFrame(w, st0, o);
  }

  lemma {:induction false} ResidentPacksAlone(p: Prims, st: State, o: Object)
    requires ObjectId(p, o) in st.resident && st.resident[ObjectId(p, o)].obj == o
    ensures GetAll(p, st, [ObjectId(p, o)]).1 == Ok([Item(ObjectId(p, o), p.encode(o))])
    ensures GetAll(p, st, [ObjectId(p, o)]).0.resident.Keys == st.resident.Keys
  {
    var id := ObjectId(p, o);
    var none: seq<Id>, items: seq<Item> := [], [Item(id, p.encode(o))];
    assert [id][1..] == none && GetAll(p, Get(p, st, id).0, none).1 == Ok([]);
    assert items + [] == items;
  }

  /** After the put and the pack: one pack, which serves the object, and one loose file. */
  lemma PackedAlone(w: World, budget: nat, o: Object, order: seq<Id>)
    requires CanPack(w, budget, o, order)
    ensures var st, id := PutAndPacked(w.p, budget, o, order), ObjectId(w.p, o);
      && Inv(w, st) && st.backend == Persistent && st.budget == budget
      && id in st.packIndex && st.resident.Keys == {id}
      && st.disk.idxs.Keys == {PackOf(w.p, o)} && st.disk.packs.Keys == {PackOf(w.p, o)}
      && st.disk.loose.Keys == {id}
  {
    var id := ObjectId(w.p, o);
    var st0 := Put(w.p, Empty(budget, Persistent), o).0;
    PutAlone(w, budget, o);
    ResidentPacksAlone(w.p, st0, o);
    GetAllKeeps(w, st0, [id]);
    WritePackKeeps(w, st0, [id], order);
    FirstPack(w, GetAll(w.p, st0, [id]).0, [Item(id, w.p.encode(o))], order);
  }

  /** The first pack written to an empty directory. */
  lemma FirstPack(w: World, st: State, items: seq<Item>, order: seq<Id>)
    requires Inv(w, st) && st.backend == Persistent && st.disk.packs == map[] && st.disk.idxs == map[]
    requires |items| == 1 && Encodes(w, items[0].canonical, items[0].id) && BodyKnown(w, items)
    requires w.p.hash(PackBytes(w.p, items)) in order
    ensures var name := w.p.hash(PackBytes(w.p, items));
      && var st1 := st.(disk := st.disk.(packs := st.disk.packs[name := PackBytes(w.p, items)],
                                         idxs := st.disk.idxs[name := PackIndex(w.p, items)]));
      && var t := Reload(st1, order).0;
      && t == st1.(packIndex := t.packIndex) && items[0].id in t.packIndex
      && t.disk.idxs.Keys == {name} && t.disk.packs.Keys == {name}
  {
    var name := w.p.hash(PackBytes(w.p, items));
    var st1 := st.(disk := st.disk.(packs := st.disk.packs[name := PackBytes(w.p, items)],
                                    idxs := st.disk.idxs[name := PackIndex(w.p, items)]));
    PackableItems(w, items);
    assert ItemsOk(w, items) && HasItem(items, items[0].id);
    WrittenPackIndexed(w, st, items, name, order, st1, items[0].id);
  }

  /** ... then delete it: only the pack has it. */
  lemma DeletedPacked(w: World, budget: nat, o: Object, order: seq<Id>)
    requires CanPack(w, budget, o, order)
    ensures var id := ObjectId(w.p, o);
      && var st := Delete(PutAndPacked(w.p, budget, o, order), id);
      && Inv(w, st) && st.backend == Persistent && st.budget == budget
      && id in st.packIndex && st.resident.Keys == {} && st.disk.loose.Keys == {}
      && st.disk.idxs.Keys == {PackOf(w.p, o)} && st.disk.packs.Keys == {PackOf(w.p, o)}
  {
    PackedAlone(w, budget, o, order);
    DeleteKeeps(w, PutAndPacked(w.p, budget, o, order), ObjectId(w.p, o));
  }

  /** ... then read it: it is resident, and still only the pack has it on disk. */
  lemma ReadBackPacked(w: World, budget: nat, o: Object, order: seq<Id>)
    requires CanPack(w, budget, o, order)
    ensures var id := ObjectId(w.p, o);
      && var st := Get(w.p, Delete(PutAndPacked(w.p, budget, o, order), id), id).0;
      && Inv(w, st) && st.backend == Persistent && id in st.resident && st.disk.loose.Keys == {}
      && st.disk.idxs.Keys == {PackOf(w.p, o)} && st.disk.packs.Keys == {PackOf(w.p, o)}
  {
    var id := ObjectId(w.p, o);
    var st := Delete(PutAndPacked(w.p, budget, o, order), id);
    DeletedPacked(w, budget, o, order);
    GetKeeps(w, st, id);
    GetFrame(w, st, id);
    GetReturns(w, st, id);
    assert Canonical(w.p, w.p.encode(o));
    SizeFromBytes(w, st, id, w.p.encode(o));
    OkMeansResident(w.p, st, id);
  }

  lemma OkMeansResident(p: Prims, st: State, id: Id)
    requires Get(p, st, id).1.Ok?
    ensures id in Get(p, st, id).0.resident
  {
  }

  lemma LastPackGone(w: World, st: State, name: Id, order: seq<Id>, id: Id)
    requires Inv(w, st) && st.backend == Persistent && st.disk.idxs.Keys == {name}
    ensures Lists(order, st.disk.idxs - {name})
    ensures id !in DeletePack(st, name, order).0.packIndex && !ServedWithout(st, name, id)
    ensures DeletePack(st, name, order).0.disk.loose == st.disk.loose
    ensures DeletePack(st, name, order).0.resident == st.resident
    ensures DeletePack(st, name, order).0.spilled == st.spilled
  {
    assert st.disk.idxs - {name} == map[];
    DeletePackKeeps(w, st, name, order);
    DeletedPackIndexed(w, st, name, order, id);
  }

  /** ... then delete the pack: the object is served from memory and is on no disk. A put of it
      reports success and writes nothing. */
  lemma ResidentOutlivesPack(w: World, budget: nat, o: Object, order: seq<Id>, order1: seq<Id>)
    requires CanPack(w, budget, o, order)
    ensures var id := ObjectId(w.p, o);
      && var st := Get(w.p, Delete(PutAndPacked(w.p, budget, o, order), id), id).0;
      && var t := DeletePack(st, PackOf(w.p, o), order1).0;
      && Contains(t, id) && !Safe(t, id) && !AllDurable(t)
      && Put(w.p, t, o).1 == Ok(id) && !Safe(Put(w.p, t, o).0, id)
  {
    var id := ObjectId(w.p, o);
    var st := Get(w.p, Delete(PutAndPacked(w.p, budget, o, order), id), id).0;
    ReadBackPacked(w, budget, o, order);
    LastPackGone(w, st, PackOf(w.p, o), order1, id);
  }

  /** Without the read the object goes with its pack, as the plain map says: put, pack, delete, and
      delete the pack is a covered run, and neither the store nor the map holds the object after it. */
  lemma DeletedWithItsPack(w: World, budget: nat, o: Object, order: seq<Id>, order1: seq<Id>)
    requires CanPack(w, budget, o, order)
    ensures var id, name, st0 := ObjectId(w.p, o), PackOf(w.p, o), Empty(budget, Persistent);
      && var ops := [PutOp(o), WritePackOp([id], order), DeleteOp(id), DeletePackOp(name, order1)];
      && CoveredRun(w.p, st0, NOTHING, ops)
      && !Contains(Run(w.p, st0, ops), id) && !Holds(MapRun(w.p, st0, NOTHING, ops), id)
  {
    var id, name, p := ObjectId(w.p, o), PackOf(w.p, o), w.p;
    var st0 := Empty(budget, Persistent);
    var st1, st2 := Put(p, st0, o).0, PutAndPacked(p, budget, o, order);
    var st3 := Delete(st2, id);
    DeletedPacked(w, budget, o, order);
    var a1, a2, a3 := MapAfterDelete(w, budget, o, order);
    GoneWithPack(w, st3, a3, name, order1, id);
    RunOfFour(p, st0, st1, st2, st3, NOTHING, a1, a2, a3,
              PutOp(o), WritePackOp([id], order), DeleteOp(id), DeletePackOp(name, order1));
  }

  lemma GoneWithPack(w: World, st: State, a: Plain, name: Id, order: seq<Id>, id: Id)
    requires Inv(w, st) && st.backend == Persistent && st.disk.idxs.Keys == {name}
    requires st.resident.Keys == {} && st.disk.loose.Keys == {} && a.live == {} && a.packs.Keys == {name}
    ensures Covered(st, a, DeletePackOp(name, order))
    ensures !Contains(Step(w.p, st, DeletePackOp(name, order)), id)
    ensures !Holds(MapNext(w.p, st, a, DeletePackOp(name, order)), id)
  {
    LastPackGone(w, st, name, order, id);
    assert a.packs - {name} == map[];
  }

  /** What the plain map holds after the put, the pack and the delete. */
  lemma MapAfterDelete(w: World, budget: nat, o: Object, order: seq<Id>) returns (a1: Plain, a2: Plain, a3: Plain)
    requires CanPack(w, budget, o, order)
    ensures a1 == MapNext(w.p, Empty(budget, Persistent), NOTHING, PutOp(o))
    ensures a2 == MapNext(w.p, Put(w.p, Empty(budget, Persistent), o).0, a1, WritePackOp([ObjectId(w.p, o)], order))
    ensures a3 == MapNext(w.p, PutAndPacked(w.p, budget, o, order), a2, DeleteOp(ObjectId(w.p, o)))
    ensures a3.live == {} && a3.packs.Keys == {PackOf(w.p, o)}
  {
    var id, name := ObjectId(w.p, o), PackOf(w.p, o);
    PutAlone(w, budget, o);
    PackTold(w, budget, o, order);
    a1 := Plain({id}, map[], map[id := w.p.encode(o)]);
    a2 := a1.(packs := map[name := set x | x in [id]]);
    a3 := a2.(live := {});
    assert {} + {id} == {id} && {id} - {id} == {};
  }

  lemma PackTold(w: World, budget: nat, o: Object, order: seq<Id>)
    requires CanPack(w, budget, o, order)
    ensures Tells(w.p, Put(w.p, Empty(budget, Persistent), o).0, WritePackOp([ObjectId(w.p, o)], order)) ==
      Packed(PackOf(w.p, o))
  {
    var st, id := Put(w.p, Empty(budget, Persistent), o).0, ObjectId(w.p, o);
    PutAlone(w, budget, o);
    ResidentPacksAlone(w.p, st, o);
    GetAllKeeps(w, st, [id]);
    WritePackKeeps(w, st, [id], order);
  }

  /** A run of four operations of which only the last deletes a pack. */
  lemma {:induction false} RunOfFour(p: Prims, st: State, st1: State, st2: State, st3: State, a: Plain, a1: Plain,
                                     a2: Plain, a3: Plain, op1: Op, op2: Op, op3: Op, op4: Op)
    requires st1 == Step(p, st, op1) && st2 == Step(p, st1, op2) && st3 == Step(p, st2, op3)
    requires a1 == MapNext(p, st, a, op1) && a2 == MapNext(p, st1, a1, op2) && a3 == MapNext(p, st2, a2, op3)
    requires !op1.DeletePackOp? && !op2.DeletePackOp? && !op3.DeletePackOp?
    ensures Run(p, st, [op1, op2, op3, op4]) == Step(p, st3, op4)
    ensures MapRun(p, st, a, [op1, op2, op3, op4]) == MapNext(p, st3, a3, op4)
    ensures CoveredRun(p, st, a, [op1, op2, op3, op4]) <==> Covered(st3, a3, op4)
  {
    RunOfOne(p, st3, a3, op4, []);
    RunOfOne(p, st2, a2, op3, [op4]);
    RunOfOne(p, st1, a1, op2, [op3, op4]);
    RunOfOne(p, st, a, op1, [op2, op3, op4]);
    assert [op4] == [op4] + [] && [op3, op4] == [op3] + [op4] && [op2, op3, op4] == [op2] + [op3, op4];
    assert [op1, op2, op3, op4] == [op1] + [op2, op3, op4];
  }

  lemma {:induction false} RunOfOne(p: Prims, st: State, a: Plain, op: Op, rest: seq<Op>)
    ensures Run(p, st, [op] + rest) == Run(p, Step(p, st, op), rest)
    ensures MapRun(p, st, a, [op] + rest) == MapRun(p, Step(p, st, op), MapNext(p, st, a, op), rest)
    ensures CoveredRun(p, st, a, [op] + rest) <==>
              Covered(st, a, op) && CoveredRun(p, Step(p, st, op), MapNext(p, st, a, op), rest)
  {
    assert ([op] + rest)[1..] == rest;
  }
}
