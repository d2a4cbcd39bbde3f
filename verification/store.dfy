/** The store object: maps, clock and counters updated in place, proved against the state
    machine. */
module StoreObject {
  import opened Octets
  import opened Objects
  import opened Pack
  import opened StoreSpec
  import opened StoreInv
  import PackIO

  class Store {
    const p: Prims
    const budget: nat
    const backend: Backend
    var resident: map<Id, Resident>
    var spilled: map<Id, nat>
    var packIndex: map<Id, PackLoc>
    var clock: nat
    var residentBytes: int
    var evictions: nat
    var rehydrations: nat
    var disk: Disk

    ghost function View(): State
      reads this
    {
      State(budget, backend, resident, spilled, packIndex, clock, residentBytes, evictions, rehydrations, disk)
    }

    /** Last-use stamps are distinct and in the past: the coldest blob is unique. */
    ghost predicate Valid()
      reads this
    {
      Stamped(resident, clock)
    }

    constructor (p: Prims, budget: nat, backend: Backend)
      ensures Valid() && View() == Empty(budget, backend) && this.p == p
    {
      this.p, this.budget, this.backend := p, budget, backend;
      resident, spilled, packIndex := map[], map[], map[];
      clock, residentBytes, evictions, rehydrations := 0, 0, 0, 0;
      disk := Disk(map[], map[], map[], map[]);
    }

    // ---- eviction ------------------------------------------------------------------

    /** Scan the residents for the coldest evictable blob. */
    method FindColdest(incoming: Id) returns (v: Option<Id>)
      requires Valid()
      ensures v == Coldest(View(), incoming)
    {
      var todo := Evictable(State(budget, backend, resident, spilled, packIndex, clock, residentBytes, evictions,
        rehydrations, disk), incoming);
      ghost var all := todo;
      v := None;
      while todo != {}
        invariant todo <= all && (v.None? ==> todo == all)
        invariant v.Some? ==> v.value in all && forall id :: id in all - todo ==>
          resident[v.value].lastUsed <= resident[id].lastUsed
        decreases |todo|
      {
        var id :| id in todo;
        if v.None? || resident[id].lastUsed < resident[v.value].lastUsed { v := Some(id); }
        todo := todo - {id};
      }
      if v.Some? { ColdestUnique(View(), incoming, v.value, Coldest(View(), incoming).value); }
    }

    /** Add up the sizes of the evictable blobs. */
    method EvictableBytes(incoming: Id) returns (sum: nat)
      ensures sum == TotalBytes(Restrict(resident, Evictable(View(), incoming)))
    {
      var todo := Evictable(State(budget, backend, resident, spilled, packIndex, clock, residentBytes, evictions,
        rehydrations, disk), incoming);
      ghost var all := Restrict(resident, todo);
      assert Restrict(all, todo) == all;
      sum := 0;
      while todo != {}
        invariant todo <= all.Keys && sum + TotalBytes(Restrict(all, todo)) == TotalBytes(all)
        decreases |todo|
      {
        var id :| id in todo;
        TotalRemove(Restrict(all, todo), id);
        assert Restrict(all, todo) - {id} == Restrict(all, todo - {id});
        sum := sum + resident[id].blobSize;
        todo := todo - {id};
      }
    }

    method MakeRoom(needed: nat, incoming: Id) returns (e: Option<Error>)
      requires Valid()
      modifies this
      ensures Valid() && (View(), e) == EnsureCapacity(old(View()), needed, incoming)
    {
      ghost var st0 := View();
      while true
        invariant Valid() && EnsureCapacity(View(), needed, incoming) == EnsureCapacity(st0, needed, incoming)
        decreases |resident|
      {
        if residentBytes + needed <= budget { return None; }
        var victim := FindColdest(incoming);
        if victim.None? { return Some(BudgetExceeded(needed, residentBytes, budget)); }
        var v := victim.value;
        assert (resident - {v}).Keys == resident.Keys - {v};
        match backend {
          case NoSpill =>
            var available := EvictableBytes(incoming);
            return Some(BudgetExceeded(needed, available, budget));
          case SpillTo =>
            if !resident[v].obj.Blob? { return Some(Panic); }
            EvictToSpill(v);
          case Persistent => Drop(v);
        }
      }
    }

    method Drop(v: Id)
      requires Valid() && v in resident
      modifies this`resident, this`residentBytes, this`evictions
      ensures Valid() && View() == DropResident(old(View()), v)
    {
      residentBytes := residentBytes - resident[v].blobSize;
      resident := resident - {v};
      evictions := evictions + 1;
    }

    method EvictToSpill(v: Id)
      requires Valid() && v in resident && resident[v].obj.Blob?
      modifies this
      ensures Valid() && View() == SpillResident(old(View()), v)
    {
      var r := resident[v];
      if v !in disk.spill { disk := disk.(spill := disk.spill[v := r.obj.content]); }
      resident := resident - {v};
      residentBytes := residentBytes - r.blobSize;
      spilled := spilled[v := r.blobSize];
      evictions := evictions + 1;
    }

    // ---- put, get, delete --------------------------------------------------------------

    method MakeRoomAndInsert(id: Id, o: Object, size: nat) returns (e: Option<Error>)
      requires Valid()
      modifies this
      ensures Valid() && (View(), e) == MakeResident(old(View()), id, o, size)
    {
      if size > 0 {
        e := MakeRoom(size, id);
        if e.Some? { return; }
        residentBytes := residentBytes + size;
      }
      clock := clock + 1;
      resident := resident[id := Resident(o, size, clock)];
      e := None;
    }

    method PutObject(o: Object) returns (r: Result<Id>)
      requires Valid()
      modifies this
      ensures Valid() && (View(), r) == Put(p, old(View()), o)
    {
      var id := ObjectId(p, o);
      if id in resident || id in spilled { return Ok(id); }
      if backend == Persistent && id in disk.loose { return Ok(id); }
      if backend == Persistent {
        disk := disk.(loose := disk.loose[id := p.zip(p.encode(o))]);
      }
      var e := MakeRoomAndInsert(id, o, BlobSize(o));
      r := if e.Some? then Err(e.value) else Ok(id);
    }

    method GetObject(id: Id) returns (r: Result<Object>)
      requires Valid()
      modifies this
      ensures Valid() && (View(), r) == Get(p, old(View()), id)
    {
      if id in resident {
        clock := clock + 1;
        resident := resident[id := resident[id].(lastUsed := clock)];
        return Ok(resident[id].obj);
      }
      var st := State(budget, backend, resident, spilled, packIndex, clock, residentBytes, evictions, rehydrations,
        disk);
      var size;
      if id in spilled {
        r := ReadSpill(p, st, id);
        size := spilled[id];
      } else if backend == Persistent {
        r := ReadDurable(p, st, id);
        size := if r.Ok? then BlobSize(r.value) else 0;
      } else {
        return Err(NotFound);
      }
      if r.Err? { return; }
      var e := MakeRoomAndInsert(id, r.value, size);
      if e.Some? { return Err(e.value); }
      spilled := spilled - {id};
      rehydrations := rehydrations + 1;
    }

    method Has(id: Id) returns (b: bool)
      ensures b == Contains(View(), id)
    {
      if id in resident || id in spilled { return true; }
      b := id in disk.loose || id in packIndex;
    }

    method Ids() returns (ids: set<Id>)
      ensures ids == AllIds(View())
    {
      ids := resident.Keys + spilled.Keys;
      ids := ids + disk.loose.Keys;
      ids := ids + packIndex.Keys;
    }

    method Remove(id: Id)
      requires Valid()
      modifies this
      ensures Valid() && View() == Delete(old(View()), id)
    {
      disk := disk.(loose := disk.loose - {id});
      if id in resident {
        residentBytes := residentBytes - resident[id].blobSize;
        resident := resident - {id};
      }
      spilled := spilled - {id};
    }

    // ---- packs ---------------------------------------------------------------------------

    /** Rescan the directory in the order it lists its index files. */
    method ReloadPacks(order: seq<Id>) returns (e: Option<Error>)
      requires Valid()
      modifies this`packIndex
      ensures Valid() && (View(), e) == Reload(old(View()), order)
    {
      packIndex := map[];
      if backend != Persistent { return None; }
      for i := 0 to |order|
        invariant Valid() && Load(disk, order[i..], packIndex) == Load(disk, order, map[])
        invariant View() == old(View()).(packIndex := packIndex)
      {
        assert order[i..][1..] == order[i + 1..];
        var name := order[i];
        if name in disk.idxs && name in disk.packs {
          var es := PackIO.ReadIndex(disk.idxs[name]);
          if es.None? { return Some(BadPackIndex); }
          var index := packIndex;
          for k := 0 to |es.value|
            invariant Keep(index, name, es.value[k..]) == Keep(packIndex, name, es.value)
          {
            assert es.value[k..][1..] == es.value[k + 1..];
            if es.value[k].id !in index { index := index[es.value[k].id := PackLoc(name, es.value[k].offset)]; }
          }
          packIndex := index;
        }
      }
      e := None;
    }

    method PackObjects(ids: seq<Id>, order: seq<Id>) returns (r: Result<Id>)
      requires Valid()
      modifies this
      ensures Valid() && (View(), r) == WritePack(p, old(View()), ids, order)
    {
      ghost var st0 := View();
      var items: seq<Item> := [];
      AheadNothing(GetAll(p, st0, ids));
      assert ids[0..] == ids;
      for i := 0 to |ids|
        invariant Valid() && Ahead(items, GetAll(p, View(), ids[i..])) == GetAll(p, st0, ids)
      {
        assert ids[i..][1..] == ids[i + 1..];
        ghost var st := View();
        var o := GetObject(ids[i]);
        AheadStep(p, st, ids[i..], items);
        if o.Err? { return Err(o.error); }
        items := items + [Item(ids[i], p.encode(o.value))];
      }
      assert items + [] == items;
      if backend != Persistent { return Err(Panic); }
      var pack, idx := PackIO.BuildPack(p, items);
      var name := p.hash(pack);
      disk := disk.(packs := disk.packs[name := pack]);
      disk := disk.(idxs := disk.idxs[name := idx]);
      var e := ReloadPacks(order);
      r := if e.Some? then Err(e.value) else Ok(name);
    }

    method RemovePack(name: Id, order: seq<Id>) returns (e: Option<Error>)
      requires Valid()
      modifies this
      ensures Valid() && (View(), e) == DeletePack(old(View()), name, order)
    {
      if backend == Persistent {
        disk := disk.(packs := disk.packs - {name});
        disk := disk.(idxs := disk.idxs - {name});
      }
      e := ReloadPacks(order);
    }
  }

  lemma ColdestUnique(st: State, incoming: Id, a: Id, b: Id)
    requires Stamped(st.resident, st.clock) && IsColdest(st, incoming, a) && IsColdest(st, incoming, b)
    ensures a == b
  {
  }

  /** A partial read of the objects to pack, put before what the rest gives. */
  ghost function Ahead(items: seq<Item>, rest: (State, Result<seq<Item>>)): (State, Result<seq<Item>>) {
    if rest.1.Err? then rest else (rest.0, Ok(items + rest.1.value))
  }

  lemma AheadNothing(rest: (State, Result<seq<Item>>))
    ensures Ahead([], rest) == rest
  {
    if rest.1.Ok? { assert [] + rest.1.value == rest.1.value; }
  }

  lemma {:induction false} AheadStep(p: Prims, st: State, ids: seq<Id>, items: seq<Item>)
    requires ids != []
    ensures Get(p, st, ids[0]).1.Err? ==>
              Ahead(items, GetAll(p, st, ids)) == (Get(p, st, ids[0]).0, Err(Get(p, st, ids[0]).1.error))
    ensures Get(p, st, ids[0]).1.Ok? ==>
              Ahead(items, GetAll(p, st, ids))
              == Ahead(items + [Item(ids[0], p.encode(Get(p, st, ids[0]).1.value))],
                GetAll(p, Get(p, st, ids[0]).0, ids[1..]))
  {
    var (st1, r) := Get(p, st, ids[0]);
    if r.Ok? {
      var rest := GetAll(p, st1, ids[1..]).1;
      if rest.Ok? {
        var it := Item(ids[0], p.encode(r.value));
        assert items + ([it] + rest.value) == items + [it] + rest.value;
      }
    }
  }
}
