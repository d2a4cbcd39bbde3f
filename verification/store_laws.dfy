/** Each operation of the store keeps the invariant; what it returns and what it keeps. */
module StoreLaws {
  import opened Octets
  import opened Sorting
  import opened Objects
  import opened Pack
  import opened StoreSpec
  import opened StoreInv
  import opened StoreEvict

  // ---- admission -----------------------------------------------------------------------

  lemma GrowResident(w: World, m: map<Id, Resident>, id: Id, r: Resident, clock: nat)
    requires WorldOk(w) && ResidentsOk(w, m) && Stamped(m, clock)
    requires ResidentOk(w, id, r) && r.lastUsed == clock + 1
    ensures ResidentsOk(w, m[id := r]) && Stamped(m[id := r], clock + 1)
  {
  }

  lemma AdmitNewKeeps(w: World, st: State, id: Id, o: Object, size: nat)
    requires Inv(w, st) && id !in st.resident && id !in st.spilled && st.residentBytes + size <= st.budget
    requires ResidentOk(w, id, Resident(o, size, 0))
    ensures Inv(w, Admit(st, id, o, size))
  {
    var r := Resident(o, size, st.clock + 1);
    TotalInsert(st.resident, id, r);
    SizedAlike(w, id, Resident(o, size, 0), r);
    GrowResident(w, st.resident, id, r, st.clock);
    ResidentSwapKeeps(w, st, id, r, st.residentBytes + size);
  }

  /** When an object was last used does not matter to whether it is right. */
  lemma SizedAlike(w: World, id: Id, q: Resident, r: Resident)
    requires WorldOk(w) && ResidentOk(w, id, q) && r == q.(lastUsed := r.lastUsed)
    ensures ResidentOk(w, id, r)
  {
  }

  /** The invariant speaks of the resident map in four places only. */
  lemma ResidentSwapKeeps(w: World, st: State, id: Id, r: Resident, bytes: nat)
    requires Inv(w, st) && id !in st.spilled
    requires Accounted(st.resident[id := r], bytes, st.budget)
    requires ResidentsOk(w, st.resident[id := r]) && Stamped(st.resident[id := r], st.clock + 1)
    ensures Inv(w, st.(resident := st.resident[id := r], residentBytes := bytes, clock := st.clock + 1))
  {
    assert st.resident[id := r].Keys == st.resident.Keys + {id};
  }

  lemma ForgetSpilledKeeps(w: World, st: State, id: Id)
    requires Inv(w, st)
    ensures Inv(w, st.(spilled := st.spilled - {id}))
  {
    ShrinkSpilled(st.spilled, st.disk.spill, st.budget, id);
  }

  lemma ShrinkSpilled(spilled: map<Id, nat>, spill: map<Id, Bytes>, budget: nat, id: Id)
    requires SpillsPlaced(spilled, spill, budget)
    ensures SpillsPlaced(spilled - {id}, spill, budget) && (spilled - {id}).Keys == spilled.Keys - {id}
    ensures spilled == map[] ==> spilled - {id} == map[]
  {
  }

  /** Inserting an object that is not resident: room is made by evicting, then it is admitted
      or, on failure, nothing more happens. */
  lemma InsertKeeps(w: World, st: State, id: Id, o: Object, size: nat) returns (room: State)
    requires Inv(w, st) && id !in st.resident && ResidentOk(w, id, Resident(o, size, 0))
    ensures Inv(w, room) && OnlyEvicts(st, room, id)
    ensures MakeResident(st, id, o, size).1.Some? ==> MakeResident(st, id, o, size).0 == room
    ensures MakeResident(st, id, o, size).1.None? ==>
              room.residentBytes + size <= st.budget && MakeResident(st, id, o, size).0 == Admit(room, id, o, size)
    ensures st.backend == NoSpill ==> room == st
  {
    if size > 0 {
      EnsureCapacityKeeps(w, st, size, id);
      room := EnsureCapacity(st, size, id).0;
    } else {
      room := st;
    }
  }

  // ---- reading copies --------------------------------------------------------------------

  /** An object read back from a verified copy. */
  lemma ReadsBack(w: World, b: Bytes, id: Id)
    requires WorldOk(w) && Encodes(w, b, id)
    ensures w.p.decode(b).Some? && w.p.encode(w.p.decode(b).value) == b
    ensures ResidentOk(w, id, Resident(w.p.decode(b).value, BlobSize(w.p.decode(b).value), 0))
  {
    assert Canonical(w.p, b);
  }

  lemma ReadLooseOk(w: World, st: State, id: Id)
    requires WorldOk(w) && id in st.disk.loose && LooseOk(w, id, st.disk.loose[id])
    ensures ReadLoose(w.p, st, id).Ok?
    ensures ResidentOk(w, id, Resident(ReadLoose(w.p, st, id).value, BlobSize(ReadLoose(w.p, st, id).value), 0))
  {
    ReadsBack(w, w.p.unzip(st.disk.loose[id]).value, id);
  }

  lemma ReadPackedOk(w: World, st: State, id: Id)
    requires WorldOk(w) && id in st.packIndex && LocOk(w, st.disk.packs, st.packIndex[id], id)
    ensures ReadPacked(w.p, st, id).Ok?
    ensures ResidentOk(w, id, Resident(ReadPacked(w.p, st, id).value, BlobSize(ReadPacked(w.p, st, id).value), 0))
  {
    var loc := st.packIndex[id];
    ReadsBack(w, w.p.unzip(Payload(st.disk.packs[loc.name], loc.offset, None).value).value, id);
  }

  lemma ReadDurableOk(w: World, st: State, id: Id)
    requires Inv(w, st) && (id in st.disk.loose || id in st.packIndex)
    ensures ReadDurable(w.p, st, id).Ok?
    ensures ResidentOk(w, id, Resident(ReadDurable(w.p, st, id).value, BlobSize(ReadDurable(w.p, st, id).value), 0))
  {
    if id in st.disk.loose { ReadLooseOk(w, st, id); } else { ReadPackedOk(w, st, id); }
  }

  lemma ReadSpillOk(w: World, st: State, id: Id)
    requires Inv(w, st) && id in st.spilled
    ensures ReadSpill(w.p, st, id) == Ok(Blob(st.disk.spill[id]))
    ensures ResidentOk(w, id, Resident(Blob(st.disk.spill[id]), st.spilled[id], 0))
  {
    assert SpillOk(w, id, st.disk.spill[id]);
  }

  // ---- put -------------------------------------------------------------------------------

  lemma PutLooseKeeps(w: World, st: State, o: Object)
    requires Inv(w, st) && Lawful(w, o) && st.backend == Persistent
    ensures Inv(w, st.(disk := st.disk.(loose := st.disk.loose[ObjectId(w.p, o) := w.p.zip(w.p.encode(o))])))
  {
    assert LooseOk(w, ObjectId(w.p, o), w.p.zip(w.p.encode(o)));
    assert LoosesOk(w, st.disk.loose[ObjectId(w.p, o) := w.p.zip(w.p.encode(o))]);
  }

  lemma InsertNewKeeps(w: World, st: State, id: Id, o: Object, size: nat)
    requires Inv(w, st) && id !in st.resident && id !in st.spilled && ResidentOk(w, id, Resident(o, size, 0))
    ensures Inv(w, MakeResident(st, id, o, size).0)
  {
    var room := InsertKeeps(w, st, id, o, size);
    if MakeResident(st, id, o, size).1.None? { AdmitNewKeeps(w, room, id, o, size); }
  }

  lemma PutKeeps(w: World, st: State, o: Object)
    requires Inv(w, st) && Lawful(w, o)
    ensures Inv(w, Put(w.p, st, o).0)
  {
    var id := ObjectId(w.p, o);
    if !(id in st.resident || id in st.spilled || (st.backend == Persistent && id in st.disk.loose)) {
      assert ResidentOk(w, id, Resident(o, BlobSize(o), 0));
      if st.backend == Persistent {
        PutLooseKeeps(w, st, o);
        InsertNewKeeps(w, st.(disk := st.disk.(loose := st.disk.loose[id := w.p.zip(w.p.encode(o))])), id, o,
          BlobSize(o));
      } else {
        InsertNewKeeps(w, st, id, o, BlobSize(o));
      }
    }
  }

  /** When a put succeeds: the object is already there, costs nothing, or fits; without a spill
      directory it must fit beside what is resident. */
  lemma PutReturns(w: World, st: State, o: Object)
    requires Inv(w, st) && Lawful(w, o) && (st.backend == SpillTo ==> PlainBlobs(st))
    ensures Put(w.p, st, o).1.Ok? <==>
              || ObjectId(w.p, o) in st.resident || ObjectId(w.p, o) in st.spilled || ObjectId(w.p, o) in st.disk.loose
              || BlobSize(o) == 0
              || (if st.backend == NoSpill then st.residentBytes + BlobSize(o) <= st.budget
                  else BlobSize(o) <= st.budget)
    ensures Put(w.p, st, o).1.Ok? ==> Put(w.p, st, o).1.value == ObjectId(w.p, o)
    ensures Put(w.p, st, o).1.Err? ==>
              Put(w.p, st, o).1
              == Err(BudgetExceeded(BlobSize(o), if st.backend == NoSpill then st.residentBytes else 0, st.budget))
  {
    var id := ObjectId(w.p, o);
    if !(id in st.resident || id in st.spilled || (st.backend == Persistent && id in st.disk.loose)) {
      match st.backend
      case NoSpill =>
        NoSpillNeverEvicts(st, BlobSize(o), id);
        NoSpillReports(st, BlobSize(o), id);
      case SpillTo => EvictionSucceedsIff(w, st, BlobSize(o), id);
      case Persistent =>
        PutLooseKeeps(w, st, o);
        EvictionSucceedsIff(w, st.(disk := st.disk.(loose := st.disk.loose[id := w.p.zip(w.p.encode(o))])),
          BlobSize(o), id);
    }
  }

  // ---- get -------------------------------------------------------------------------------

  lemma TouchKeeps(w: World, st: State, id: Id)
    requires Inv(w, st) && id in st.resident
    ensures Inv(w, Get(w.p, st, id).0)
  {
    TotalRestamp(st.resident, id, st.clock + 1);
    var r := st.resident[id].(lastUsed := st.clock + 1);
    assert ResidentOk(w, id, st.resident[id]);
    SizedAlike(w, id, st.resident[id], r);
    GrowResident(w, st.resident, id, r, st.clock);
    ResidentSwapKeeps(w, st, id, r, st.residentBytes);
  }

  lemma RehydrateKeeps(w: World, st: State, id: Id, o: Object, size: nat)
    requires Inv(w, st) && id !in st.resident && ResidentOk(w, id, Resident(o, size, 0))
    ensures Inv(w, Rehydrate(st, id, o, size).0)
  {
    var room := InsertKeeps(w, st, id, o, size);
    if MakeResident(st, id, o, size).1.None? { ReadmitKeeps(w, room, id, o, size); }
  }

  lemma ReadmitKeeps(w: World, st: State, id: Id, o: Object, size: nat)
    requires Inv(w, st) && id !in st.resident && st.residentBytes + size <= st.budget
    requires ResidentOk(w, id, Resident(o, size, 0))
    ensures Inv(w, Admit(st, id, o, size).(spilled := st.spilled - {id}, rehydrations := st.rehydrations + 1))
  {
    ForgetSpilledKeeps(w, st, id);
    var st1 := st.(spilled := st.spilled - {id});
    AdmitNewKeeps(w, st1, id, o, size);
    var st2 := Admit(st1, id, o, size).(rehydrations := st.rehydrations + 1);
    assert st2 == Admit(st, id, o, size).(spilled := st.spilled - {id}, rehydrations := st.rehydrations + 1);
  }

  lemma GetKeeps(w: World, st: State, id: Id)
    requires Inv(w, st)
    ensures Inv(w, Get(w.p, st, id).0)
  {
    if id in st.resident {
      TouchKeeps(w, st, id);
    } else if id in st.spilled {
      ReadSpillOk(w, st, id);
      RehydrateKeeps(w, st, id, Blob(st.disk.spill[id]), st.spilled[id]);
    } else if st.backend == Persistent && (id in st.disk.loose || id in st.packIndex) {
      ReadDurableOk(w, st, id);
      var o := ReadDurable(w.p, st, id).value;
      RehydrateKeeps(w, st, id, o, BlobSize(o));
    }
  }

  /** The size at which `id` would be readmitted. */
  ghost function StoredSize(w: World, st: State, id: Id): nat
    requires Inv(w, st) && Contains(st, id)
  {
    if id in st.resident then st.resident[id].blobSize
    else if id in st.spilled then st.spilled[id]
    else ReadDurableOk(w, st, id); BlobSize(ReadDurable(w.p, st, id).value)
  }

  /** `get` finds exactly the ids the store contains, returns an object with that id's bytes,
      and refuses a present object only when it is larger than the whole budget. */
  lemma GetReturns(w: World, st: State, id: Id)
    requires Inv(w, st) && (st.backend == SpillTo ==> PlainBlobs(st))
    ensures Get(w.p, st, id).1 == Err(NotFound) <==> !Contains(st, id)
    ensures Contains(st, id) ==>
              (Get(w.p, st, id).1.Ok? <==> id in st.resident || StoredSize(w, st, id) <= st.budget)
    ensures Get(w.p, st, id).1.Ok? ==> Encodes(w, w.p.encode(Get(w.p, st, id).1.value), id)
    ensures Get(w.p, st, id).1.Err? && Contains(st, id) ==>
              Get(w.p, st, id).1.error == BudgetExceeded(StoredSize(w, st, id), 0, st.budget)
  {
    if id in st.resident {
      assert ResidentOk(w, id, st.resident[id]);
    } else if id in st.spilled {
      ReadSpillOk(w, st, id);
      EvictionSucceedsIff(w, st, st.spilled[id], id);
    } else if st.backend == Persistent && (id in st.disk.loose || id in st.packIndex) {
      ReadDurableOk(w, st, id);
      EvictionSucceedsIff(w, st, BlobSize(ReadDurable(w.p, st, id).value), id);
    }
  }

  // ---- delete ------------------------------------------------------------------------------

  lemma ForgetLooseKeeps(w: World, st: State, id: Id)
    requires Inv(w, st)
    ensures Inv(w, st.(disk := st.disk.(loose := st.disk.loose - {id})))
  {
    ShrinkLoose(w, st.disk.loose, id);
  }

  lemma ShrinkLoose(w: World, loose: map<Id, Bytes>, id: Id)
    requires LoosesOk(w, loose)
    ensures LoosesOk(w, loose - {id}) && (loose == map[] ==> loose - {id} == map[])
  {
  }

  lemma DeleteKeeps(w: World, st: State, id: Id)
    requires Inv(w, st)
    ensures Inv(w, Delete(st, id))
  {
    ForgetSpilledKeeps(w, st, id);
    var st1 := st.(spilled := st.spilled - {id});
    ForgetLooseKeeps(w, st1, id);
    var st2 := st1.(disk := st1.disk.(loose := st1.disk.loose - {id}));
    if id in st.resident { RemoveKeeps(w, st2, id, st.evictions); }
  }

  // ---- loading the pack directory --------------------------------------------------------------

  /** A pack and an index of one name belong together: every row finds its object's record. */
  lemma FilesAgree(w: World, name: Id, pack: Bytes, idx: Bytes)
    requires WorldOk(w) && PackFileOk(w, name, pack) && IndexFileOk(w, name, idx)
    ensures ParseIndex(idx).Some?
    ensures forall k :: 0 <= k < |ParseIndex(idx).value| ==>
              RecordOk(w, pack, ParseIndex(idx).value[k].offset, ParseIndex(idx).value[k].id)
  {
    var xs :| ItemsOk(w, xs) && pack == PackBytes(w.p, xs) && w.p.hash(pack) == name;
    var ys :| ItemsOk(w, ys) && idx == PackIndex(w.p, ys) && w.p.hash(PackBytes(w.p, ys)) == name;
    assert pack == PackBytes(w.p, ys);
    IndexInverts(w.p, ys);
    var rows := Entries(w.p, ys);
    var es := ParseIndex(idx).value;
    forall k | 0 <= k < |es| ensures RecordOk(w, pack, es[k].offset, es[k].id) {
      SortHolds(rows, EntryId, es[k]);
      var i :| 0 <= i < |rows| && rows[i] == es[k];
      RecordAt(w, ys, i);
    }
  }

  lemma RecordAt(w: World, items: seq<Item>, i: nat)
    requires WorldOk(w) && ItemsOk(w, items) && i < |items|
    ensures RecordOk(w, PackBytes(w.p, items), EntryFor(w.p, items, i).offset, items[i].id)
  {
    assert Packable(w.p, items[i]);
    BodySplit(w.p, items, i);
    PayloadLaw(w.p, items[i], PackBytes(w.p, items[..i]), PackBody(w.p, items[i + 1..]), None);
  }

  ghost predicate HasId(es: seq<IndexEntry>, id: Id) { exists k :: 0 <= k < |es| && es[k].id == id }

  lemma HasIdCons(es: seq<IndexEntry>, id: Id)
    requires es != []
    ensures HasId(es, id) <==> es[0].id == id || HasId(es[1..], id)
  {
    if k :| 0 <= k < |es| && es[k].id == id && k > 0 { assert es[1..][k - 1].id == id; }
    if k :| 0 <= k < |es[1..]| && es[1..][k].id == id { assert es[k + 1].id == id; }
  }

  /** Adding an index's rows: it gains exactly their ids, keeps the locations it had, and every
      location is good if the rows are. */
  lemma {:induction false} KeepSpec(w: World, index: map<Id, PackLoc>, packs: map<Id, Bytes>, name: Id,
                                    es: seq<IndexEntry>)
    requires IndexOk(w, index, packs) && name in packs
    requires forall k :: 0 <= k < |es| ==> RecordOk(w, packs[name], es[k].offset, es[k].id)
    ensures IndexOk(w, Keep(index, name, es), packs)
    ensures forall id :: id in Keep(index, name, es) <==> id in index || HasId(es, id)
    ensures forall id :: id in index ==> Keep(index, name, es)[id] == index[id]
    decreases |es|
  {
    if es != [] {
      var next := if es[0].id in index then index else index[es[0].id := PackLoc(name, es[0].offset)];
      assert LocOk(w, packs, PackLoc(name, es[0].offset), es[0].id);
      KeepSpec(w, next, packs, name, es[1..]);
      forall id ensures id in Keep(index, name, es) <==> id in index || HasId(es, id) { HasIdCons(es, id); }
    }
  }
}
