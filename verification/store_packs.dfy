/** Packs: loading the directory, writing and deleting packs, and the one way to break it. */
module StorePacks {
  import opened Octets
  import opened Objects
  import opened Pack
  import opened StoreSpec
  import opened StoreInv
  import opened StoreLaws

  /** `order` lists the index files of a directory. */
  ghost predicate Lists(order: seq<Id>, idxs: map<Id, Bytes>) { forall name :: name in idxs ==> name in order }

  ghost predicate ServedBy(packs: map<Id, Bytes>, idxs: map<Id, Bytes>, order: seq<Id>, id: Id) {
    exists name :: name in order && name in idxs && name in packs && id in ListedIds(idxs[name])
  }

  lemma ListedIff(idx: Bytes, id: Id)
    requires ParseIndex(idx).Some?
    ensures id in ListedIds(idx) <==> HasId(ParseIndex(idx).value, id)
  {
  }

  lemma ServedByCons(packs: map<Id, Bytes>, idxs: map<Id, Bytes>, order: seq<Id>, id: Id)
    requires order != []
    ensures ServedBy(packs, idxs, order, id) <==>
              (order[0] in idxs && order[0] in packs && id in ListedIds(idxs[order[0]]))
              || ServedBy(packs, idxs, order[1..], id)
  {
  }

  /** Loading a sound directory succeeds; it serves exactly the listed ids of the packs that are
      there, each at a location that holds its record. */
  lemma {:induction false} LoadSpec(w: World, disk: Disk, order: seq<Id>, index: map<Id, PackLoc>)
    requires WorldOk(w) && DirOk(w, disk.packs, disk.idxs) && IndexOk(w, index, disk.packs)
    ensures Load(disk, order, index).1.None? && IndexOk(w, Load(disk, order, index).0, disk.packs)
    ensures forall id :: id in Load(disk, order, index).0 <==>
              id in index || ServedBy(disk.packs, disk.idxs, order, id)
    decreases |order|
  {
    if order != [] {
      var name := order[0];
      var next := index;
      if name in disk.idxs && name in disk.packs {
        FilesAgree(w, name, disk.packs[name], disk.idxs[name]);
        var es := ParseIndex(disk.idxs[name]).value;
        KeepSpec(w, index, disk.packs, name, es);
        next := Keep(index, name, es);
      }
      LoadSpec(w, disk, order[1..], next);
      forall id ensures id in Load(disk, order, index).0 <==>
        id in index || ServedBy(disk.packs, disk.idxs, order, id) {
        ServedByCons(disk.packs, disk.idxs, order, id);
        if name in disk.idxs && name in disk.packs { ListedIff(disk.idxs[name], id); }
      }
    }
  }

  /** Reloading after the directory changed to another sound one. */
  lemma ReloadKeeps(w: World, st: State, packs: map<Id, Bytes>, idxs: map<Id, Bytes>, order: seq<Id>, st1: State)
    requires Inv(w, st) && st.backend == Persistent && DirOk(w, packs, idxs) && Lists(order, idxs)
    requires st1 == st.(disk := st.disk.(packs := packs, idxs := idxs))
    ensures Reload(st1, order).1.None? && Inv(w, Reload(st1, order).0)
    ensures Reload(st1, order).0 == st1.(packIndex := Reload(st1, order).0.packIndex)
  {
    LoadSpec(w, st1.disk, order, map[]);
    var index := Load(st1.disk, order, map[]).0;
    forall id ensures id in index <==> Serves(packs, idxs, id) { }
    assert IndexCurrent(index, packs, idxs);
  }

  // ---- reading the objects to pack ----------------------------------------------------------

  /** Reading an object never touches what is durable. */
  lemma GetFrame(w: World, st: State, id: Id)
    requires Inv(w, st)
    ensures Get(w.p, st, id).0.backend == st.backend && Get(w.p, st, id).0.budget == st.budget
    ensures Get(w.p, st, id).0.packIndex == st.packIndex
    ensures Get(w.p, st, id).0.disk.loose == st.disk.loose
    ensures Get(w.p, st, id).0.disk.packs == st.disk.packs && Get(w.p, st, id).0.disk.idxs == st.disk.idxs
    ensures Get(w.p, st, id).1.Ok? ==> Encodes(w, w.p.encode(Get(w.p, st, id).1.value), id)
  {
    if id in st.resident {
      assert ResidentOk(w, id, st.resident[id]);
    } else if id in st.spilled {
      ReadSpillOk(w, st, id);
      var room := InsertKeeps(w, st, id, Blob(st.disk.spill[id]), st.spilled[id]);
    } else if st.backend == Persistent && (id in st.disk.loose || id in st.packIndex) {
      ReadDurableOk(w, st, id);
      var o := ReadDurable(w.p, st, id).value;
      var room := InsertKeeps(w, st, id, o, BlobSize(o));
    }
  }

  lemma {:induction false} GetAllKeeps(w: World, st: State, ids: seq<Id>)
    requires Inv(w, st)
    ensures Inv(w, GetAll(w.p, st, ids).0)
    ensures GetAll(w.p, st, ids).0.backend == st.backend && GetAll(w.p, st, ids).0.budget == st.budget
    ensures GetAll(w.p, st, ids).0.packIndex == st.packIndex
    ensures GetAll(w.p, st, ids).0.disk.loose == st.disk.loose
    ensures GetAll(w.p, st, ids).0.disk.packs == st.disk.packs && GetAll(w.p, st, ids).0.disk.idxs == st.disk.idxs
    ensures GetAll(w.p, st, ids).1.Ok? ==>
              |GetAll(w.p, st, ids).1.value| == |ids|
              && forall i :: 0 <= i < |ids| ==>
                   GetAll(w.p, st, ids).1.value[i].id == ids[i]
                   && Encodes(w, GetAll(w.p, st, ids).1.value[i].canonical, ids[i])
    decreases |ids|
  {
    if ids != [] {
      GetKeeps(w, st, ids[0]);
      GetFrame(w, st, ids[0]);
      var (st1, r) := Get(w.p, st, ids[0]);
      if r.Ok? { GetAllKeeps(w, st1, ids[1..]); }
    }
  }

  lemma PackableItems(w: World, items: seq<Item>)
    requires WorldOk(w) && forall i :: 0 <= i < |items| ==> Encodes(w, items[i].canonical, items[i].id)
    ensures AllPackable(w.p, items)
  {
    forall i | 0 <= i < |items| ensures Packable(w.p, items[i]) {
      assert Encodes(w, items[i].canonical, items[i].id);
      assert Canonical(w.p, items[i].canonical);
    }
  }

  ghost predicate Distinct(ids: seq<Id>) { forall i, j :: 0 <= i < j < |ids| ==> ids[i] != ids[j] }

  /** The pack to be written is framed in 64 bits and its body is one of the world's. */
  ghost predicate BodyKnown(w: World, items: seq<Item>) {
    Fits(w.p, items) && PackBytes(w.p, items) in w.bodies
  }

  // ---- writing and deleting ---------------------------------------------------------------------

  lemma AddedPackOk(w: World, packs: map<Id, Bytes>, idxs: map<Id, Bytes>, items: seq<Item>)
    requires DirOk(w, packs, idxs) && ItemsOk(w, items)
    ensures var name := w.p.hash(PackBytes(w.p, items));
            DirOk(w, packs[name := PackBytes(w.p, items)], idxs[name := PackIndex(w.p, items)])
  {
    var name := w.p.hash(PackBytes(w.p, items));
    assert PackFileOk(w, name, PackBytes(w.p, items));
    assert IndexFileOk(w, name, PackIndex(w.p, items));
  }

  /** Packing objects that can be read, no id twice, succeeds and keeps the invariant. */
  lemma {:induction false} WritePackKeeps(w: World, st: State, ids: seq<Id>, order: seq<Id>)
    requires Inv(w, st) && Distinct(ids)
    requires GetAll(w.p, st, ids).1.Ok? && st.backend == Persistent ==>
               BodyKnown(w, GetAll(w.p, st, ids).1.value)
               && Lists(order, st.disk.idxs[w.p.hash(PackBytes(w.p, GetAll(w.p, st, ids).1.value)) := []])
    ensures Inv(w, WritePack(w.p, st, ids, order).0)
    ensures WritePack(w.p, st, ids, order).1.Ok? <==> GetAll(w.p, st, ids).1.Ok? && st.backend == Persistent
  {
    GetAllKeeps(w, st, ids);
    var (st1, got) := GetAll(w.p, st, ids);
    if got.Ok? && st.backend == Persistent {
      var items := got.value;
      PackableItems(w, items);
      assert ItemsOk(w, items);
      AddedPackOk(w, st1.disk.packs, st1.disk.idxs, items);
      var name := w.p.hash(PackBytes(w.p, items));
      var packs := st1.disk.packs[name := PackBytes(w.p, items)];
      var idxs := st1.disk.idxs[name := PackIndex(w.p, items)];
      ReloadKeeps(w, st1, packs, idxs, order, st1.(disk := st1.disk.(packs := packs, idxs := idxs)));
    }
  }

  lemma {:induction false} LoadStops(disk: Disk, order: seq<Id>, index: map<Id, PackLoc>, name: Id)
    requires name in order && name in disk.idxs && name in disk.packs && ParseIndex(disk.idxs[name]).None?
    ensures Load(disk, order, index).1 == Some(BadPackIndex)
    decreases |order|
  {
    if order[0] != name {
      if order[0] !in disk.idxs || order[0] !in disk.packs {
        LoadStops(disk, order[1..], index, name);
      } else if ParseIndex(disk.idxs[order[0]]).Some? {
        LoadStops(disk, order[1..], Keep(index, order[0], ParseIndex(disk.idxs[order[0]]).value), name);
      }
    }
  }

  /** Packing an id twice writes an index that cannot be loaded: the call fails, and so does
      every later reload until that pack is deleted. */
  lemma {:induction false} WritePackTwiceFails(w: World, st: State, ids: seq<Id>, order: seq<Id>, later: seq<Id>)
    requires Inv(w, st) && st.backend == Persistent && !Distinct(ids)
    requires GetAll(w.p, st, ids).1.Ok? && Fits(w.p, GetAll(w.p, st, ids).1.value)
    requires w.p.hash(PackBytes(w.p, GetAll(w.p, st, ids).1.value)) in order
    requires w.p.hash(PackBytes(w.p, GetAll(w.p, st, ids).1.value)) in later
    ensures WritePack(w.p, st, ids, order).1 == Err(BadPackIndex)
    ensures Reload(WritePack(w.p, st, ids, order).0, later).1 == Some(BadPackIndex)
  {
    GetAllKeeps(w, st, ids);
    var (st1, got) := GetAll(w.p, st, ids);
    var items := got.value;
    PackableItems(w, items);
    assert !DistinctIds(items) by {
      var i, j :| 0 <= i < j < |ids| && ids[i] == ids[j];
      assert items[i].id == items[j].id;
    }
    IndexInverts(w.p, items);
    var name := w.p.hash(PackBytes(w.p, items));
    var disk := st1.disk.(packs := st1.disk.packs[name := PackBytes(w.p, items)],
      idxs := st1.disk.idxs[name := PackIndex(w.p, items)]);
    LoadStops(disk, order, map[], name);
    LoadStops(disk, later, map[], name);
  }

  lemma DeletePackKeeps(w: World, st: State, name: Id, order: seq<Id>)
    requires Inv(w, st) && Lists(order, st.disk.idxs - {name})
    ensures Inv(w, DeletePack(st, name, order).0) && DeletePack(st, name, order).1.None?
    ensures st.backend == Persistent ==>
              DeletePack(st, name, order).0 ==
                st.(disk := st.disk.(packs := st.disk.packs - {name}, idxs := st.disk.idxs - {name}),
                                                   packIndex := DeletePack(st, name, order).0.packIndex)
    ensures st.backend != Persistent ==> DeletePack(st, name, order).0 == st
  {
    if st.backend == Persistent {
      var packs, idxs := st.disk.packs - {name}, st.disk.idxs - {name};
      assert DirOk(w, packs, idxs);
      ReloadKeeps(w, st, packs, idxs, order, st.(disk := st.disk.(packs := packs, idxs := idxs)));
    }
  }
}
