/** The store's assumptions hold of the real codec. */
module StoreWorld {
  import opened Octets
  import opened Objects
  import opened Codec
  import opened Pack
  import opened StoreInv

  function EncodeAny(o: Object): Bytes { if Typed(o) then Encode(o) else [] }

  /** The canonical codec with some hash and some compressor. */
  function CodecPrims(hash: Bytes -> Id, zip: Bytes -> Bytes, unzip: Bytes -> Option<Bytes>): Prims {
    Prims(hash, zip, unzip, EncodeAny, Decode)
  }

  /** Encodings of typed objects that compress to less than 4 GiB. */
  ghost predicate EncodingsOf(zip: Bytes -> Bytes, s: iset<Bytes>) {
    forall b :: b in s ==> |zip(b)| < U32 && exists o :: Typed(o) && Encode(o) == b
  }

  /** With the canonical codec, a hash that tells the run's encodings and pack bodies apart, and
      an invertible compressor, every assumption of the store is met. */
  lemma CodecMakesWorld(w: World, hash: Bytes -> Id, zip: Bytes -> Bytes, unzip: Bytes -> Option<Bytes>)
    requires w.p == CodecPrims(hash, zip, unzip) && PrimsOk(w.p)
    requires CollisionFree(w.p, w.encodings) && CollisionFree(w.p, w.bodies) && EncodingsOf(zip, w.encodings)
    ensures WorldOk(w)
    ensures forall o :: Typed(o) && Encode(o) in w.encodings ==> Lawful(w, o)
  {
    forall b | b in w.encodings ensures Canonical(w.p, b) {
      var o :| Typed(o) && Encode(o) == b;
      EncodeDecode(o);
    }
    forall o | Typed(o) && Encode(o) in w.encodings ensures Lawful(w, o) {
      EncodeDecode(o);
    }
  }
}
