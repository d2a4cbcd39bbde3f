/** The object store as a state machine: what each operation returns and leaves. */
module StoreSpec {
  import opened Octets
  import opened Objects
  import opened Pack

  datatype Backend = NoSpill | SpillTo | Persistent
  datatype Resident = Resident(obj: Object, blobSize: nat, lastUsed: nat)
  /** A pack is named by the hash of its bytes. */
  datatype PackLoc = PackLoc(name: Id, offset: nat)

  /** Files by id or pack name: spilled blobs, loose objects, pack bodies, pack indexes. */
  datatype Disk = Disk(spill: map<Id, Bytes>, loose: map<Id, Bytes>, packs: map<Id, Bytes>, idxs: map<Id, Bytes>)

  datatype State = State(
    budget: nat, backend: Backend,
    resident: map<Id, Resident>, spilled: map<Id, nat>, packIndex: map<Id, PackLoc>,
    clock: nat, residentBytes: int, evictions: nat, rehydrations: nat, disk: Disk)

  function Empty(budget: nat, backend: Backend): State {
    State(budget, backend, map[], map[], map[], 0, 0, 0, 0, Disk(map[], map[], map[], map[]))
  }

  // ---- queries -------------------------------------------------------------------

  predicate Contains(st: State, id: Id) {
    id in st.resident || id in st.spilled || id in st.disk.loose || id in st.packIndex
  }

  function AllIds(st: State): set<Id> {
    st.resident.Keys + st.spilled.Keys + st.disk.loose.Keys + st.packIndex.Keys
  }

  // ---- eviction --------------------------------------------------------------------

  ghost function TotalBytes(m: map<Id, Resident>): nat {
    if m == map[] then 0 else
    var id :| id in m;
    m[id].blobSize + TotalBytes(m - {id})
  }

  /** Resident blobs other than the incoming one. */
  function Evictable(st: State, incoming: Id): set<Id> {
    set id | id in st.resident && st.resident[id].blobSize > 0 && id != incoming
  }

  ghost function Restrict(m: map<Id, Resident>, ids: set<Id>): map<Id, Resident> {
    map id | id in m && id in ids :: m[id]
  }

  ghost predicate IsColdest(st: State, incoming: Id, v: Id) {
    && v in Evictable(st, incoming)
    && forall id :: id in Evictable(st, incoming) ==> st.resident[v].lastUsed <= st.resident[id].lastUsed
  }

  lemma {:induction false} ColdestExists(st: State, incoming: Id, ids: set<Id>) returns (v: Id)
    requires ids != {} && ids <= st.resident.Keys
    ensures v in ids && forall id :: id in ids ==> st.resident[v].lastUsed <= st.resident[id].lastUsed
  {
    v :| v in ids;
    if ids != {v} {
      var w := ColdestExists(st, incoming, ids - {v});
      if st.resident[w].lastUsed < st.resident[v].lastUsed { v := w; }
    }
  }

  ghost function Coldest(st: State, incoming: Id): (v: Option<Id>)
    ensures v.None? <==> Evictable(st, incoming) == {}
    ensures v.Some? ==> IsColdest(st, incoming, v.value)
  {
    if Evictable(st, incoming) == {} then None else
    assert exists v :: IsColdest(st, incoming, v) by {
      var v := ColdestExists(st, incoming, Evictable(st, incoming));
      assert IsColdest(st, incoming, v);
    }
    var v :| IsColdest(st, incoming, v);
    Some(v)
  }

  function DropResident(st: State, v: Id): State
    requires v in st.resident
  {
    st.(resident := st.resident - {v}, residentBytes := st.residentBytes - st.resident[v].blobSize,
        evictions := st.evictions + 1)
  }

  /** Write a blob's bytes to the spill directory unless the file exists, and drop it from RAM. */
  function SpillResident(st: State, v: Id): State
    requires v in st.resident && st.resident[v].obj.Blob?
  {
    var r := st.resident[v];
    var spill := if v in st.disk.spill then st.disk.spill else st.disk.spill[v := r.obj.content];
    DropResident(st, v).(spilled := st.spilled[v := r.blobSize], disk := st.disk.(spill := spill))
  }

  /** Free room for `needed` bytes by evicting coldest first. The victim of a spill must be a
      plain blob: anything else aborts the program. */
  ghost function EnsureCapacity(st: State, needed: nat, incoming: Id): (State, Option<Error>)
    decreases |st.resident|
  {
    if st.residentBytes + needed <= st.budget then (st, None) else
    match Coldest(st, incoming)
    case None => (st, Some(BudgetExceeded(needed, st.residentBytes, st.budget)))
    case Some(v) =>
      match st.backend
      case NoSpill =>
        (st, Some(BudgetExceeded(needed, TotalBytes(Restrict(st.resident, Evictable(st, incoming))), st.budget)))
      case SpillTo =>
        if !st.resident[v].obj.Blob? then (st, Some(Panic)) else EnsureCapacity(SpillResident(st, v), needed, incoming)
      case Persistent => EnsureCapacity(DropResident(st, v), needed, incoming)
  }

  // ---- put, get, delete --------------------------------------------------------------

  function ObjectId(p: Prims, o: Object): Id { p.hash(p.encode(o)) }

  /** Stamp and insert an object whose room has been made. */
  function Admit(st: State, id: Id, o: Object, size: nat): State {
    st.(clock := st.clock + 1, residentBytes := st.residentBytes + size,
        resident := st.resident[id := Resident(o, size, st.clock + 1)])
  }

  ghost function MakeResident(st: State, id: Id, o: Object, size: nat): (State, Option<Error>) {
    if size == 0 then (Admit(st, id, o, 0), None) else
    var (st1, e) := EnsureCapacity(st, size, id);
    if e.Some? then (st1, e) else (Admit(st1, id, o, size), None)
  }

  ghost function Put(p: Prims, st: State, o: Object): (State, Result<Id>) {
    var id := ObjectId(p, o);
    if id in st.resident || id in st.spilled then (st, Ok(id))
    else if st.backend == Persistent && id in st.disk.loose then (st, Ok(id))
    else
      var st1 := if st.backend == Persistent
                 then st.(disk := st.disk.(loose := st.disk.loose[id := p.zip(p.encode(o))])) else st;
      var (st2, e) := MakeResident(st1, id, o, BlobSize(o));
      (st2, if e.Some? then Err(e.value) else Ok(id))
  }

  function ReadSpill(p: Prims, st: State, id: Id): Result<Object> {
    if id !in st.disk.spill then Err(IoError) else
    var o := Blob(st.disk.spill[id]);
    if ObjectId(p, o) != id then Err(MalformedObject) else Ok(o)
  }

  /** A loose file is compressed, or raw if it does not decompress. */
  function ReadLoose(p: Prims, st: State, id: Id): Result<Object>
    requires id in st.disk.loose
  {
    var raw := st.disk.loose[id];
    var canonical := match p.unzip(raw) case Some(d) => d case None => raw;
    if p.hash(canonical) != id then Err(MalformedObject)
    else match p.decode(canonical)
      case None => Err(MalformedObject)
      case Some(o) => Ok(o)
  }

  function ReadPacked(p: Prims, st: State, id: Id): Result<Object> {
    if id !in st.packIndex then Err(NotFound) else
    var loc := st.packIndex[id];
    if loc.name !in st.disk.packs then Err(IoError) else
    match Payload(st.disk.packs[loc.name], loc.offset, None)
    case None => Err(IoError)
    case Some(payload) => Unpack(p, payload, id, None, MalformedObject)
  }

  function ReadDurable(p: Prims, st: State, id: Id): Result<Object> {
    if id in st.disk.loose then ReadLoose(p, st, id) else ReadPacked(p, st, id)
  }

  ghost function Rehydrate(st: State, id: Id, o: Object, size: nat): (State, Result<Object>) {
    var (st1, e) := MakeResident(st, id, o, size);
    if e.Some? then (st1, Err(e.value))
    else (st1.(spilled := st1.spilled - {id}, rehydrations := st1.rehydrations + 1), Ok(o))
  }

  ghost function Get(p: Prims, st: State, id: Id): (State, Result<Object>) {
    if id in st.resident then
      var r := st.resident[id];
      (st.(clock := st.clock + 1, resident := st.resident[id := r.(lastUsed := st.clock + 1)]), Ok(r.obj))
    else if id in st.spilled then
      match ReadSpill(p, st, id)
      case Err(e) => (st, Err(e))
      case Ok(o) => Rehydrate(st, id, o, st.spilled[id])
    else if st.backend == Persistent then
      match ReadDurable(p, st, id)
      case Err(e) => (st, Err(e))
      case Ok(o) => Rehydrate(st, id, o, BlobSize(o))
    else (st, Err(NotFound))
  }

  /** Remove the loose file and any RAM or spill-map copy. Packs keep theirs. */
  function Delete(st: State, id: Id): State {
    var st1 := st.(disk := st.disk.(loose := st.disk.loose - {id}), spilled := st.spilled - {id});
    if id in st.resident
    then st1.(resident := st.resident - {id}, residentBytes := st.residentBytes - st.resident[id].blobSize)
    else st1
  }

  // ---- packs -----------------------------------------------------------------------

  function Keep(index: map<Id, PackLoc>, name: Id, es: seq<IndexEntry>): map<Id, PackLoc>
    decreases |es|
  {
    if es == [] then index else
    Keep(if es[0].id in index then index else index[es[0].id := PackLoc(name, es[0].offset)], name, es[1..])
  }

  /** Load the index files in the order the directory lists them; an index without its pack is
      skipped, an unreadable one stops the load. */
  function Load(disk: Disk, order: seq<Id>, index: map<Id, PackLoc>): (map<Id, PackLoc>, Option<Error>) {
    if order == [] then (index, None) else
    var name := order[0];
    if name !in disk.idxs || name !in disk.packs then Load(disk, order[1..], index)
    else match ParseIndex(disk.idxs[name])
      case None => (index, Some(BadPackIndex))
      case Some(es) => Load(disk, order[1..], Keep(index, name, es))
  }

  function Reload(st: State, order: seq<Id>): (State, Option<Error>) {
    if st.backend != Persistent then (st.(packIndex := map[]), None) else
    var (index, e) := Load(st.disk, order, map[]);
    (st.(packIndex := index), e)
  }

  /** Read the objects to pack, stopping at the first that cannot be read. */
  ghost function GetAll(p: Prims, st: State, ids: seq<Id>): (State, Result<seq<Item>>)
    decreases |ids|
  {
    if ids == [] then (st, Ok([])) else
    var (st1, r) := Get(p, st, ids[0]);
    if r.Err? then (st1, Err(r.error)) else
    var (st2, rest) := GetAll(p, st1, ids[1..]);
    if rest.Err? then (st2, Err(rest.error))
    else (st2, Ok([Item(ids[0], p.encode(r.value))] + rest.value))
  }

  ghost function WritePack(p: Prims, st: State, ids: seq<Id>, order: seq<Id>): (State, Result<Id>) {
    var (st1, got) := GetAll(p, st, ids);
    if got.Err? then (st1, Err(got.error))
    else if st1.backend != Persistent then (st1, Err(Panic))
    else
      var items := got.value;
      var name := p.hash(PackBytes(p, items));
      var disk := st1.disk.(packs := st1.disk.packs[name := PackBytes(p, items)],
                            idxs := st1.disk.idxs[name := PackIndex(p, items)]);
      var (st2, e) := Reload(st1.(disk := disk), order);
      (st2, if e.Some? then Err(e.value) else Ok(name))
  }

  function DeletePack(st: State, name: Id, order: seq<Id>): (State, Option<Error>) {
    Reload(if st.backend != Persistent then st
           else st.(disk := st.disk.(packs := st.disk.packs - {name}, idxs := st.disk.idxs - {name})), order)
  }
}
