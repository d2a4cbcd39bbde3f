/** What every reachable store state satisfies, whatever was put, read, deleted or packed and
    whichever calls failed. */
module StoreInv {
  import opened Octets
  import opened Objects
  import opened Pack
  import opened StoreSpec

  // ---- what is assumed of hash and codec ---------------------------------------------

  /** The encodings and the pack bodies a run may meet. The hash is only assumed to tell these
      apart; a 32-byte hash cannot do so for all byte strings. */
  datatype World = World(p: Prims, encodings: iset<Bytes>, bodies: iset<Bytes>)

  ghost predicate CollisionFree(p: Prims, s: iset<Bytes>) {
    forall a, b :: a in s && b in s && p.hash(a) == p.hash(b) ==> a == b
  }

  /** Canonical bytes: they decode, and the decoded object encodes to them. */
  ghost predicate Canonical(p: Prims, b: Bytes) {
    p.decode(b).Some? && p.encode(p.decode(b).value) == b && |p.zip(b)| < U32
  }

  ghost predicate WorldOk(w: World) {
    && PrimsOk(w.p) && CollisionFree(w.p, w.encodings) && CollisionFree(w.p, w.bodies)
    && (forall b :: b in w.encodings ==> Canonical(w.p, b))
  }

  /** An object of this world: its encoding is known and decoding it keeps its size. */
  ghost predicate Lawful(w: World, o: Object)
    requires WorldOk(w)
  {
    w.p.encode(o) in w.encodings && BlobSize(w.p.decode(w.p.encode(o)).value) == BlobSize(o)
  }

  // ---- copies --------------------------------------------------------------------------

  ghost predicate Encodes(w: World, b: Bytes, id: Id) { b in w.encodings && w.p.hash(b) == id }

  ghost predicate ResidentOk(w: World, id: Id, r: Resident)
    requires WorldOk(w)
  {
    Lawful(w, r.obj) && Encodes(w, w.p.encode(r.obj), id) && r.blobSize == BlobSize(r.obj)
  }

  ghost predicate SpillOk(w: World, id: Id, content: Bytes)
    requires WorldOk(w)
  {
    Lawful(w, Blob(content)) && Encodes(w, w.p.encode(Blob(content)), id)
  }

  ghost predicate LooseOk(w: World, id: Id, raw: Bytes) {
    w.p.unzip(raw).Some? && Encodes(w, w.p.unzip(raw).value, id)
  }

  /** The record at a pack offset holds the bytes of `id`. */
  ghost predicate RecordOk(w: World, pack: Bytes, offset: nat, id: Id) {
    Payload(pack, offset, None).Some? && LooseOk(w, id, Payload(pack, offset, None).value)
  }

  // ---- the pack directory ----------------------------------------------------------------

  /** Items that may be packed together: of this world, with no id twice. */
  ghost predicate ItemsOk(w: World, items: seq<Item>) {
    && AllPackable(w.p, items) && DistinctIds(items) && Fits(w.p, items)
    && PackBytes(w.p, items) in w.bodies
    && forall i :: 0 <= i < |items| ==> items[i].canonical in w.encodings
  }

  ghost predicate PackFileOk(w: World, name: Id, pack: Bytes) {
    exists items :: ItemsOk(w, items) && pack == PackBytes(w.p, items) && w.p.hash(pack) == name
  }

  ghost predicate IndexFileOk(w: World, name: Id, idx: Bytes) {
    exists items :: ItemsOk(w, items) && idx == PackIndex(w.p, items) && w.p.hash(PackBytes(w.p, items)) == name
  }

  /** Each file of the directory is right by itself, so any subset of them is right too. */
  ghost predicate DirOk(w: World, packs: map<Id, Bytes>, idxs: map<Id, Bytes>) {
    && (forall name {:trigger PackFileOk(w, name, packs[name])} :: name in packs ==> PackFileOk(w, name, packs[name]))
    && (forall name {:trigger IndexFileOk(w, name, idxs[name])} :: name in idxs ==> IndexFileOk(w, name, idxs[name]))
  }

  /** The ids an index file lists. */
  function ListedIds(idx: Bytes): set<Id> {
    match ParseIndex(idx)
    case None => {}
    case Some(es) => set i | 0 <= i < |es| :: es[i].id
  }

  /** The ids a directory serves: those of indexes whose pack is there. */
  ghost predicate Serves(packs: map<Id, Bytes>, idxs: map<Id, Bytes>, id: Id) {
    exists name :: name in idxs && name in packs && id in ListedIds(idxs[name])
  }

  // ---- the invariant, one part per group of fields ---------------------------------------------

  ghost predicate Accounted(resident: map<Id, Resident>, bytes: int, budget: nat) {
    bytes == TotalBytes(resident) <= budget
  }

  ghost predicate Stamped(resident: map<Id, Resident>, clock: nat) {
    && (forall id {:trigger resident[id].lastUsed} :: id in resident ==> resident[id].lastUsed <= clock)
    && (forall a, b {:trigger resident[a].lastUsed, resident[b].lastUsed} ::
          a in resident && b in resident && a != b ==> resident[a].lastUsed != resident[b].lastUsed)
  }

  /** Every spilled id has its bytes on the spill backend and fits the budget. */
  ghost predicate SpillsPlaced(spilled: map<Id, nat>, spill: map<Id, Bytes>, budget: nat) {
    forall id :: id in spilled ==> id in spill && spilled[id] == |spill[id]| && 0 < spilled[id] <= budget
  }

  ghost predicate BackendOk(st: State) {
    && (st.backend != SpillTo ==> st.spilled == map[])
    && (st.backend != Persistent ==> st.disk.loose == map[] && st.packIndex == map[])
  }

  ghost predicate ResidentsOk(w: World, resident: map<Id, Resident>)
    requires WorldOk(w)
  {
    forall id {:trigger ResidentOk(w, id, resident[id])} :: id in resident ==> ResidentOk(w, id, resident[id])
  }

  ghost predicate SpillsOk(w: World, spill: map<Id, Bytes>)
    requires WorldOk(w)
  {
    forall id {:trigger SpillOk(w, id, spill[id])} :: id in spill ==> SpillOk(w, id, spill[id])
  }

  ghost predicate LoosesOk(w: World, loose: map<Id, Bytes>) {
    forall id {:trigger LooseOk(w, id, loose[id])} :: id in loose ==> LooseOk(w, id, loose[id])
  }

  ghost predicate LocOk(w: World, packs: map<Id, Bytes>, loc: PackLoc, id: Id) {
    loc.name in packs && RecordOk(w, packs[loc.name], loc.offset, id)
  }

  ghost predicate IndexOk(w: World, index: map<Id, PackLoc>, packs: map<Id, Bytes>) {
    forall id {:trigger LocOk(w, packs, index[id], id)} :: id in index ==> LocOk(w, packs, index[id], id)
  }

  ghost predicate IndexCurrent(index: map<Id, PackLoc>, packs: map<Id, Bytes>, idxs: map<Id, Bytes>) {
    forall id :: id in index <==> Serves(packs, idxs, id)
  }

  ghost predicate Inv(w: World, st: State) {
    && WorldOk(w)
    && Accounted(st.resident, st.residentBytes, st.budget)
    && Stamped(st.resident, st.clock)
    && st.resident.Keys !! st.spilled.Keys
    && SpillsPlaced(st.spilled, st.disk.spill, st.budget)
    && BackendOk(st)
    && ResidentsOk(w, st.resident)
    && SpillsOk(w, st.disk.spill)
    && LoosesOk(w, st.disk.loose)
    && IndexOk(w, st.packIndex, st.disk.packs)
    && DirOk(w, st.disk.packs, st.disk.idxs)
    && (st.backend == Persistent ==> IndexCurrent(st.packIndex, st.disk.packs, st.disk.idxs))
  }

  lemma EmptyInv(w: World, budget: nat, backend: Backend)
    requires WorldOk(w)
    ensures Inv(w, Empty(budget, backend))
    ensures Empty(budget, backend).evictions == 0 && Empty(budget, backend).rehydrations == 0
    ensures forall id :: !Contains(Empty(budget, backend), id)
  {
  }

  // ---- byte totals -------------------------------------------------------------------------

  lemma {:induction false} TotalRemove(m: map<Id, Resident>, id: Id)
    requires id in m
    ensures TotalBytes(m) == m[id].blobSize + TotalBytes(m - {id})
  {
    var k :| k in m && TotalBytes(m) == m[k].blobSize + TotalBytes(m - {k});
    if k != id {
      TotalRemove(m - {k}, id);
      TotalRemove(m - {id}, k);
      assert m - {k} - {id} == m - {id} - {k};
    }
  }

  lemma TotalInsert(m: map<Id, Resident>, id: Id, r: Resident)
    requires id !in m
    ensures TotalBytes(m[id := r]) == TotalBytes(m) + r.blobSize
  {
    TotalRemove(m[id := r], id);
    assert m[id := r] - {id} == m;
  }

  lemma TotalRestamp(m: map<Id, Resident>, id: Id, t: nat)
    requires id in m
    ensures TotalBytes(m[id := m[id].(lastUsed := t)]) == TotalBytes(m)
  {
    TotalRemove(m, id);
    TotalRemove(m[id := m[id].(lastUsed := t)], id);
    assert m[id := m[id].(lastUsed := t)] - {id} == m - {id};
  }

  lemma {:induction false} TotalSubset(m: map<Id, Resident>, n: map<Id, Resident>)
    requires n.Keys <= m.Keys && forall id :: id in n ==> n[id] == m[id]
    ensures TotalBytes(n) <= TotalBytes(m)
  {
    if n != map[] {
      var id :| id in n;
      TotalRemove(n, id);
      TotalRemove(m, id);
      TotalSubset(m - {id}, n - {id});
    }
  }
}
