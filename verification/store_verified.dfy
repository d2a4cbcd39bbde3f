/** What a get makes of whatever is on disk: it returns an object only for bytes that hash to the id. */
module StoreVerified {
  import opened Octets
  import opened Objects
  import opened Pack
  import opened PackAccount
  import opened StoreSpec

  /** The bytes of a loose file: compressed, or raw if they do not decompress. */
  predicate LooseHolds(p: Prims, file: Bytes, c: Bytes) {
    p.unzip(file) == Some(c) || (p.unzip(file).None? && c == file)
  }

  lemma ReadLooseIff(p: Prims, st: State, id: Id, o: Object)
    requires id in st.disk.loose
    ensures ReadLoose(p, st, id) == Ok(o) <==>
      exists c :: LooseHolds(p, st.disk.loose[id], c) && p.hash(c) == id && p.decode(c) == Some(o)
    ensures ReadLoose(p, st, id).Err? ==> ReadLoose(p, st, id).error == MalformedObject
  {
    var raw := st.disk.loose[id];
    var c := if p.unzip(raw).Some? then p.unzip(raw).value else raw;
    assert LooseHolds(p, raw, c);
  }

  lemma ReadSpillIff(p: Prims, st: State, id: Id, o: Object)
    ensures ReadSpill(p, st, id) == Ok(o) <==>
      id in st.disk.spill && o == Blob(st.disk.spill[id]) && p.hash(p.encode(o)) == id
    ensures id in st.disk.spill && ReadSpill(p, st, id).Err? ==> ReadSpill(p, st, id).error == MalformedObject
  {
  }

  /** A whole record with this payload lies where the index says. */
  predicate PackedAt(st: State, id: Id, payload: Bytes) {
    && id in st.packIndex && st.packIndex[id].name in st.disk.packs
    && Payload(st.disk.packs[st.packIndex[id].name], st.packIndex[id].offset, None) == Some(payload)
  }

  /** A packed record: the id the index gives is not compared with the one in the pack, only with the hash. */
  lemma ReadPackedIff(p: Prims, st: State, id: Id, o: Object)
    ensures ReadPacked(p, st, id) == Ok(o) <==>
      exists payload, c :: PackedAt(st, id, payload) && p.unzip(payload) == Some(c) && p.hash(c) == id
        && p.decode(c) == Some(o)
  {
    if id in st.packIndex && st.packIndex[id].name in st.disk.packs {
      var payload := Payload(st.disk.packs[st.packIndex[id].name], st.packIndex[id].offset, None);
      if payload.Some? && p.unzip(payload.value).Some? {
        var c := p.unzip(payload.value).value;
        assert p.unzip(payload.value) == Some(c);
      }
    }
  }

  /** Whatever the files hold: an object that a get returns and that was not in memory has bytes that hash
      to its id. */
  lemma GetVerified(p: Prims, st: State, id: Id, o: Object)
    requires id !in st.resident && Get(p, st, id).1 == Ok(o)
    ensures exists c :: p.hash(c) == id && (c == p.encode(o) || p.decode(c) == Some(o))
  {
    if id in st.spilled {
      ReadSpillIff(p, st, id, o);
    } else if id in st.disk.loose {
      ReadLooseIff(p, st, id, o);
    } else {
      ReadPackedIff(p, st, id, o);
    }
  }

  /** A spilled, loose or packed file with other bytes in it is refused as malformed, and nothing changes. */
  lemma TamperedRefused(p: Prims, st: State, id: Id)
    requires id !in st.resident
    requires (id in st.spilled && id in st.disk.spill && p.hash(p.encode(Blob(st.disk.spill[id]))) != id)
      || (id !in st.spilled && st.backend == Persistent && id in st.disk.loose
          && forall c :: LooseHolds(p, st.disk.loose[id], c) ==> p.hash(c) != id)
      || (id !in st.spilled && st.backend == Persistent && id !in st.disk.loose && PackedElsewise(p, st, id))
    ensures Get(p, st, id) == (st, Err(MalformedObject))
  {
    if id !in st.spilled && id in st.disk.loose {
      var raw := st.disk.loose[id];
      assert LooseHolds(p, raw, if p.unzip(raw).Some? then p.unzip(raw).value else raw);
    }
  }

  /** A whole record lies where the index says, and its bytes hash to something else. */
  ghost predicate PackedElsewise(p: Prims, st: State, id: Id) {
    exists payload, c :: PackedAt(st, id, payload) && p.unzip(payload) == Some(c) && p.hash(c) != id
  }
}
