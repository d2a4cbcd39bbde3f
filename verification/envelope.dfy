/** Envelope encryption over ideal primitives: a secret sealed under a data key that is wrapped
    for each recipient, and who can open it after any run of grants and revokes. */
module Envelope {
  import opened Octets
  import opened Objects

  const DEK_LEN := 32
  const NONCE_LEN := 24
  const EPK_LEN := 32

  /** The primitives: public key of a secret key, key agreement, key derivation from (shared,
      ephemeral public key, recipient public key), authenticated encryption with (key, nonce,
      associated data, message), and the fingerprint of a public key. */
  datatype Crypto = Crypto(
    pub: Bytes -> Bytes,
    agree: (Bytes, Bytes) -> Bytes,
    derive: (Bytes, Bytes, Bytes) -> Bytes,
    enc: (Bytes, Bytes, Bytes, Bytes) -> Bytes,
    dec: (Bytes, Bytes, Bytes, Bytes) -> Option<Bytes>,
    fingerprint: Bytes -> Bytes)

  /** Public keys have 32 bytes, both sides of a key agreement get the same secret, and
      decryption undoes encryption. */
  ghost predicate CryptoOk(c: Crypto) {
    && (forall sk :: |c.pub(sk)| == EPK_LEN)
    && (forall a, b :: c.agree(a, c.pub(b)) == c.agree(b, c.pub(a)))
    && (forall k, n, a, m :: c.dec(k, n, a, c.enc(k, n, a, m)) == Some(m))
  }

  /** No two of these public keys share a recipient id. */
  ghost predicate DistinctIds(c: Crypto, pks: set<Bytes>) {
    forall p, q :: p in pks && q in pks && c.fingerprint(p) == c.fingerprint(q) ==> p == q
  }

  datatype Error = NotARecipient | Decrypt
  datatype Outcome<+T> = Ok(value: T) | Err(error: Error)

  // ---- randomness -------------------------------------------------------------------------

  /** The `n` bytes a generator with this output gives from position `at`. */
  function Drawn(stream: nat -> byte, at: nat, n: nat): (b: Bytes)
    ensures |b| == n
  {
    seq(n, i requires 0 <= i < n => stream(at + i))
  }

  class Rng {
    const stream: nat -> byte
    var at: nat

    constructor (stream: nat -> byte)
      ensures this.stream == stream && at == 0
    {
      this.stream, at := stream, 0;
    }

    method Fill(n: nat) returns (b: Bytes)
      modifies this
      ensures b == Drawn(stream, old(at), n) && at == old(at) + n
    {
      b := Drawn(stream, at, n);
      at := at + n;
    }
  }

  const WRAP_DRAW: nat := EPK_LEN + NONCE_LEN

  // ---- wrapping the data key ----------------------------------------------------------------

  function WrapBlob(c: Crypto, dek: Bytes, pk: Bytes, ephemeral: Bytes, nonce: Bytes): Bytes {
    var epk := c.pub(ephemeral);
    epk + nonce + c.enc(c.derive(c.agree(ephemeral, pk), epk, pk), nonce, [], dek)
  }

  /** The wrap made with the randomness from position `at`. */
  function Wrap(c: Crypto, dek: Bytes, pk: Bytes, stream: nat -> byte, at: nat): WrappedKey {
    WrappedKey(c.fingerprint(pk),
               WrapBlob(c, dek, pk, Drawn(stream, at, EPK_LEN), Drawn(stream, at + EPK_LEN, NONCE_LEN)))
  }

  function Unwrap(c: Crypto, blob: Bytes, sk: Bytes): Outcome<Bytes> {
    if |blob| < EPK_LEN + NONCE_LEN then Err(Decrypt)
    else
      var epk := blob[..EPK_LEN];
      var nonce := blob[EPK_LEN..EPK_LEN + NONCE_LEN];
      var wrapped := blob[EPK_LEN + NONCE_LEN..];
      var key := c.derive(c.agree(sk, epk), epk, c.pub(sk));
      match c.dec(key, nonce, [], wrapped)
      case None => Err(Decrypt)
      case Some(dek) => if |dek| != DEK_LEN then Err(Decrypt) else Ok(dek)
  }

  /** A wrap for a key pair's public half opens with its secret half. */
  lemma UnwrapWrapped(c: Crypto, dek: Bytes, sk: Bytes, ephemeral: Bytes, nonce: Bytes)
    requires CryptoOk(c) && |dek| == DEK_LEN && |nonce| == NONCE_LEN
    ensures Unwrap(c, WrapBlob(c, dek, c.pub(sk), ephemeral, nonce), sk) == Ok(dek)
  {
    var blob := WrapBlob(c, dek, c.pub(sk), ephemeral, nonce);
    assert blob[..EPK_LEN] == c.pub(ephemeral);
    assert blob[EPK_LEN..EPK_LEN + NONCE_LEN] == nonce;
  }

  // ---- seal, open, grant, revoke ----------------------------------------------------------------

  /** The first wrap addressed to `id`. */
  function Find(ws: seq<WrappedKey>, id: Bytes): Option<Bytes> {
    if ws == [] then None
    else if ws[0].recipientId == id then Some(ws[0].wrappedDek)
    else Find(ws[1..], id)
  }

  /** The wraps not addressed to `id`, in order. */
  function Without(ws: seq<WrappedKey>, id: Bytes): seq<WrappedKey> {
    if ws == [] then []
    else (if ws[0].recipientId == id then [] else [ws[0]]) + Without(ws[1..], id)
  }

  function Wraps(c: Crypto, dek: Bytes, pks: seq<Bytes>, stream: nat -> byte, at: nat): seq<WrappedKey>
  {
    seq(|pks|, i requires 0 <= i < |pks| => Wrap(c, dek, pks[i], stream, at + i * WRAP_DRAW))
  }

  /** A secret sealed with the randomness from position `at`: data key, nonce, then the wraps. */
  function SealedSecret(c: Crypto, name: Bytes, plaintext: Bytes, pks: seq<Bytes>, stream: nat -> byte,
                        at: nat): Secret {
    var dek := Drawn(stream, at, DEK_LEN);
    var nonce := Drawn(stream, at + DEK_LEN, NONCE_LEN);
    Secret(name, nonce, c.enc(dek, nonce, name, plaintext), Wraps(c, dek, pks, stream, at + DEK_LEN + NONCE_LEN))
  }

  function Open(c: Crypto, s: Secret, sk: Bytes): Outcome<Bytes> {
    match Find(s.keys, c.fingerprint(c.pub(sk)))
    case None => Err(NotARecipient)
    case Some(blob) =>
      if |s.nonce| != NONCE_LEN then Err(Decrypt)
      else match Unwrap(c, blob, sk)
        case Err(e) => Err(e)
        case Ok(dek) =>
          match c.dec(dek, s.nonce, s.name, s.ciphertext)
          case None => Err(Decrypt)
          case Some(m) => Ok(m)
  }

  function Rewrapped(c: Crypto, s: Secret, sk: Bytes, pk: Bytes, stream: nat -> byte, at: nat): Outcome<Secret> {
    match Find(s.keys, c.fingerprint(c.pub(sk)))
    case None => Err(NotARecipient)
    case Some(blob) =>
      match Unwrap(c, blob, sk)
      case Err(e) => Err(e)
      case Ok(dek) => Ok(s.(keys := Without(s.keys, c.fingerprint(pk)) + [Wrap(c, dek, pk, stream, at)]))
  }

  function Dropped(s: Secret, id: Bytes): Secret { s.(keys := Without(s.keys, id)) }

  // ---- of any secret, well formed or not ----------------------------------------------------------

  /** A wrap that opens to `dek`: 32 bytes of public key, 24 of nonce, and the encryption of 32 bytes under
      the key derived from the agreement, that public key and the reader's. */
  predicate UnwrapsTo(c: Crypto, blob: Bytes, sk: Bytes, dek: Bytes) {
    && |blob| >= 56 && |dek| == 32
    && c.dec(c.derive(c.agree(sk, blob[..32]), blob[..32], c.pub(sk)), blob[32..56], [], blob[56..]) == Some(dek)
  }

  predicate FirstFor(ws: seq<WrappedKey>, id: Bytes, i: nat) {
    i < |ws| && ws[i].recipientId == id && forall j :: 0 <= j < i ==> ws[j].recipientId != id
  }

  lemma UnwrapIff(c: Crypto, blob: Bytes, sk: Bytes, dek: Bytes)
    ensures Unwrap(c, blob, sk) == Ok(dek) <==> UnwrapsTo(c, blob, sk, dek)
    ensures Unwrap(c, blob, sk).Err? ==> Unwrap(c, blob, sk).error == Decrypt
  {
  }

  lemma {:induction false} FindIff(ws: seq<WrappedKey>, id: Bytes, i: nat)
    ensures FirstFor(ws, id, i) ==> Find(ws, id) == Some(ws[i].wrappedDek)
    ensures Find(ws, id).None? <==> forall j :: 0 <= j < |ws| ==> ws[j].recipientId != id
    decreases |ws|
  {
    if ws != [] {
      FindIff(ws[1..], id, if i > 0 then i - 1 else 0);
      assert forall j :: 0 < j < |ws| ==> ws[j] == ws[1..][j - 1];
      assert FirstFor(ws, id, i) && i > 0 ==> FirstFor(ws[1..], id, i - 1);
    }
  }

  lemma {:induction false} FindsFirst(ws: seq<WrappedKey>, id: Bytes) returns (i: nat)
    requires Find(ws, id).Some?
    ensures FirstFor(ws, id, i)
    decreases |ws|
  {
    i := 0;
    if ws[0].recipientId != id {
      var k := FindsFirst(ws[1..], id);
      i := k + 1;
      assert forall j :: 0 < j < |ws| ==> ws[j] == ws[1..][j - 1];
    }
  }

  /** Of any secret, whatever its nonce and its wraps are: it opens to `m` exactly when its first wrap for the
      reader opens to a data key under which the ciphertext decrypts to `m` with the secret's name as associated
      data; it is refused as not addressed exactly when it has no wrap for the reader. */
  lemma OpenIff(c: Crypto, s: Secret, sk: Bytes, m: Bytes)
    ensures Open(c, s, sk) == Ok(m) <==>
      exists i: nat, dek: Bytes {:trigger UnwrapsTo(c, s.keys[i].wrappedDek, sk, dek)} ::
        && FirstFor(s.keys, c.fingerprint(c.pub(sk)), i) && UnwrapsTo(c, s.keys[i].wrappedDek, sk, dek)
        && |s.nonce| == 24 && c.dec(dek, s.nonce, s.name, s.ciphertext) == Some(m)
    ensures Open(c, s, sk) == Err(NotARecipient) <==>
      forall j :: 0 <= j < |s.keys| ==> s.keys[j].recipientId != c.fingerprint(c.pub(sk))
  {
    var id := c.fingerprint(c.pub(sk));
    FindIff(s.keys, id, 0);
    if Find(s.keys, id).Some? {
      var i := FindsFirst(s.keys, id);
      FindIff(s.keys, id, i);
      forall j: nat | FirstFor(s.keys, id, j) ensures j == i { }
      forall dek ensures Unwrap(c, s.keys[i].wrappedDek, sk) == Ok(dek) <==>
        UnwrapsTo(c, s.keys[i].wrappedDek, sk, dek) {
        UnwrapIff(c, s.keys[i].wrappedDek, sk, dek);
      }
      if Open(c, s, sk) == Ok(m) {
        assert UnwrapsTo(c, s.keys[i].wrappedDek, sk, Unwrap(c, s.keys[i].wrappedDek, sk).value);
      }
    }
  }

  /** A grant by the holder of `sk` succeeds exactly when that first wrap opens; it changes nothing but the
      wraps. */
  lemma RewrapIff(c: Crypto, s: Secret, sk: Bytes, pk: Bytes, stream: nat -> byte, at: nat)
    ensures var r := Rewrapped(c, s, sk, pk, stream, at);
      && (r.Ok? <==>
            exists i: nat, dek: Bytes {:trigger UnwrapsTo(c, s.keys[i].wrappedDek, sk, dek)} ::
              FirstFor(s.keys, c.fingerprint(c.pub(sk)), i) && UnwrapsTo(c, s.keys[i].wrappedDek, sk, dek))
      && (r.Ok? ==> r.value == s.(keys := r.value.keys))
      && (r == Err(NotARecipient) <==>
            forall j :: 0 <= j < |s.keys| ==> s.keys[j].recipientId != c.fingerprint(c.pub(sk)))
  {
    var id := c.fingerprint(c.pub(sk));
    FindIff(s.keys, id, 0);
    if Find(s.keys, id).Some? {
      var i := FindsFirst(s.keys, id);
      FindIff(s.keys, id, i);
      forall dek ensures Unwrap(c, s.keys[i].wrappedDek, sk) == Ok(dek) <==>
        UnwrapsTo(c, s.keys[i].wrappedDek, sk, dek) {
        UnwrapIff(c, s.keys[i].wrappedDek, sk, dek);
      }
      UnwrapIff(c, s.keys[i].wrappedDek, sk, []);
      if Unwrap(c, s.keys[i].wrappedDek, sk).Ok? {
        assert UnwrapsTo(c, s.keys[i].wrappedDek, sk, Unwrap(c, s.keys[i].wrappedDek, sk).value);
      }
    }
  }

  // ---- the operations as the program runs them ----------------------------------------------------

  method WrapDek(c: Crypto, dek: Bytes, pk: Bytes, rng: Rng) returns (w: WrappedKey)
    modifies rng
    ensures w == Wrap(c, dek, pk, rng.stream, old(rng.at)) && rng.at == old(rng.at) + WRAP_DRAW
  {
    var ephemeral := rng.Fill(EPK_LEN);
    var epk := c.pub(ephemeral);
    var key := c.derive(c.agree(ephemeral, pk), epk, pk);
    var nonce := rng.Fill(NONCE_LEN);
    var wrapped := c.enc(key, nonce, [], dek);
    w := WrappedKey(c.fingerprint(pk), epk + nonce + wrapped);
  }

  method Seal(c: Crypto, name: Bytes, plaintext: Bytes, pks: seq<Bytes>, rng: Rng) returns (s: Secret)
    modifies rng
    ensures s == SealedSecret(c, name, plaintext, pks, rng.stream, old(rng.at))
    ensures rng.at == old(rng.at) + DEK_LEN + NONCE_LEN + |pks| * WRAP_DRAW
  {
    var dek := rng.Fill(DEK_LEN);
    var nonce := rng.Fill(NONCE_LEN);
    var ciphertext := c.enc(dek, nonce, name, plaintext);
    ghost var first := rng.at;
    var keys: seq<WrappedKey> := [];
    for i := 0 to |pks|
      invariant rng.at == first + i * WRAP_DRAW
      invariant keys == Wraps(c, dek, pks, rng.stream, first)[..i]
    {
      var w := WrapDek(c, dek, pks[i], rng);
      keys := keys + [w];
    }
    s := Secret(name, nonce, ciphertext, keys);
  }

  /** Keep the wraps not addressed to `id`. */
  method Retain(ws: seq<WrappedKey>, id: Bytes) returns (kept: seq<WrappedKey>)
    ensures kept == Without(ws, id)
  {
    kept := [];
    for i := 0 to |ws|
      invariant kept + Without(ws[i..], id) == Without(ws, id)
    {
      assert ws[i..][1..] == ws[i + 1..];
      ghost var rest := Without(ws[i + 1..], id);
      assert kept + ([ws[i]] + rest) == kept + [ws[i]] + rest && kept + ([] + rest) == kept + rest;
      if ws[i].recipientId != id { kept := kept + [ws[i]]; }
    }
    assert ws[|ws|..] == [];
  }

  method RewrapFor(c: Crypto, s: Secret, sk: Bytes, pk: Bytes, rng: Rng) returns (r: Outcome<Secret>)
    modifies rng
    ensures r == Rewrapped(c, s, sk, pk, rng.stream, old(rng.at))
    ensures rng.at == if r.Ok? then old(rng.at) + WRAP_DRAW else old(rng.at)
  {
    var found := Find(s.keys, c.fingerprint(c.pub(sk)));
    if found.None? { return Err(NotARecipient); }
    var dek := Unwrap(c, found.value, sk);
    if dek.Err? { return Err(dek.error); }
    var w := WrapDek(c, dek.value, pk, rng);
    var kept := Retain(s.keys, w.recipientId);
    r := Ok(s.(keys := kept + [w]));
  }

  method Revoke(s: Secret, id: Bytes) returns (r: Secret)
    ensures r == Dropped(s, id)
  {
    var kept := Retain(s.keys, id);
    r := s.(keys := kept);
  }

  // ---- list facts -----------------------------------------------------------------------------

  lemma {:induction false} FindWithout(ws: seq<WrappedKey>, id: Bytes, other: Bytes)
    ensures Find(Without(ws, id), other) == if other == id then None else Find(ws, other)
  {
    if ws != [] {
      FindWithout(ws[1..], id, other);
      var rest := Without(ws[1..], id);
      assert ([ws[0]] + rest)[1..] == rest;
      assert [] + rest == rest;
    }
  }

  lemma {:induction false} FindAppend(ws: seq<WrappedKey>, w: WrappedKey, id: Bytes)
    ensures Find(ws + [w], id) ==
      if Find(ws, id).Some? then Find(ws, id) else if w.recipientId == id then Some(w.wrappedDek) else None
  {
    if ws == [] {
      assert ws + [w] == [w];
    } else {
      FindAppend(ws[1..], w, id);
      assert (ws + [w])[1..] == ws[1..] + [w];
    }
  }

  /** A found wrap is one of the list. */
  lemma {:induction false} FindMember(ws: seq<WrappedKey>, id: Bytes)
    ensures Find(ws, id).None? <==> forall i :: 0 <= i < |ws| ==> ws[i].recipientId != id
    ensures Find(ws, id).Some? ==> exists i :: 0 <= i < |ws| && ws[i] == WrappedKey(id, Find(ws, id).value)
  {
    if ws != [] && ws[0].recipientId != id {
      FindMember(ws[1..], id);
      assert forall i {:trigger ws[i]} :: 1 <= i < |ws| ==> ws[i] == ws[1..][i - 1];
      if Find(ws, id).Some? {
        var i :| 0 <= i < |ws[1..]| && ws[1..][i] == WrappedKey(id, Find(ws, id).value);
        assert ws[i + 1] == WrappedKey(id, Find(ws, id).value);
      }
    }
  }

  // ---- runs -----------------------------------------------------------------------------------------

  /** A change after the seal: a grant by the holder of a secret key, with its randomness at
      `at`, or a revoke of a recipient id. */
  datatype Event = Grant(sk: Bytes, pk: Bytes, at: nat) | Drop(id: Bytes)

  /** A grant that fails leaves the secret as it was. */
  function Apply(c: Crypto, stream: nat -> byte, s: Secret, e: Event): Secret {
    match e
    case Grant(sk, pk, at) =>
      (match Rewrapped(c, s, sk, pk, stream, at)
       case Ok(t) => t
       case Err(_) => s)
    case Drop(id) => Dropped(s, id)
  }

  function Run(c: Crypto, stream: nat -> byte, s: Secret, es: seq<Event>): Secret
    decreases |es|
  {
    if es == [] then s
    else Apply(c, stream, Run(c, stream, s, es[..|es| - 1]), es[|es| - 1])
  }

  /** The last event that concerns `id` was the seal or a grant by somebody whose own last event
      was one: defined on the events alone. */
  predicate Holds(c: Crypto, ids: set<Bytes>, es: seq<Event>, id: Bytes)
    decreases |es|
  {
    if es == [] then id in ids
    else
      var before := es[..|es| - 1];
      match es[|es| - 1]
      case Grant(sk, pk, _) =>
        if c.fingerprint(pk) == id && Holds(c, ids, before, c.fingerprint(c.pub(sk))) then true
        else Holds(c, ids, before, id)
      case Drop(gone) => gone != id && Holds(c, ids, before, id)
  }

  /** Every key that takes part is one of `pks`. */
  predicate Among(c: Crypto, pks: set<Bytes>, es: seq<Event>) {
    forall i :: 0 <= i < |es| && es[i].Grant? ==> es[i].pk in pks && c.pub(es[i].sk) in pks
  }

  /** The wrap under `id` was made for the public key with that id. */
  ghost predicate MadeFor(c: Crypto, dek: Bytes, pks: set<Bytes>, w: WrappedKey) {
    exists pk, e, n :: pk in pks && |n| == NONCE_LEN
      && w == WrappedKey(c.fingerprint(pk), WrapBlob(c, dek, pk, e, n))
  }

  ghost predicate Usable(c: Crypto, dek: Bytes, pks: set<Bytes>, found: Option<Bytes>, id: Bytes) {
    found.Some? ==> MadeFor(c, dek, pks, WrappedKey(id, found.value))
  }

  lemma WrapMadeFor(c: Crypto, dek: Bytes, pks: set<Bytes>, pk: Bytes, stream: nat -> byte, at: nat)
    requires pk in pks
    ensures MadeFor(c, dek, pks, Wrap(c, dek, pk, stream, at))
  {
  }

  lemma UsableUnwraps(c: Crypto, dek: Bytes, pks: set<Bytes>, blob: Bytes, sk: Bytes)
    requires CryptoOk(c) && DistinctIds(c, pks) && c.pub(sk) in pks && |dek| == DEK_LEN
    requires MadeFor(c, dek, pks, WrappedKey(c.fingerprint(c.pub(sk)), blob))
    ensures Unwrap(c, blob, sk) == Ok(dek)
  {
    var pk, e, n :| pk in pks && |n| == NONCE_LEN
      && WrappedKey(c.fingerprint(c.pub(sk)), blob) == WrappedKey(c.fingerprint(pk), WrapBlob(c, dek, pk, e, n));
    assert pk == c.pub(sk);
    UnwrapWrapped(c, dek, sk, e, n);
  }

  /** What a run keeps: the sealed fields, and for every id a usable wrap exactly when it holds. */
  ghost predicate Kept(c: Crypto, dek: Bytes, pks: set<Bytes>, ids: set<Bytes>, es: seq<Event>, s: Secret, t: Secret) {
    && t.name == s.name && t.nonce == s.nonce && t.ciphertext == s.ciphertext
    && (forall id :: Find(t.keys, id).Some? <==> Holds(c, ids, es, id))
    && (forall id :: Usable(c, dek, pks, Find(t.keys, id), id))
  }

  lemma {:induction false} GrantKeeps(c: Crypto, stream: nat -> byte, dek: Bytes, pks: set<Bytes>, ids: set<Bytes>,
                                      es: seq<Event>, s: Secret, t: Secret, e: Event)
    requires CryptoOk(c) && DistinctIds(c, pks) && |dek| == DEK_LEN
    requires e.Grant? && e.pk in pks && c.pub(e.sk) in pks
    requires Kept(c, dek, pks, ids, es, s, t)
    ensures Kept(c, dek, pks, ids, es + [e], s, Apply(c, stream, t, e))
    ensures Rewrapped(c, t, e.sk, e.pk, stream, e.at).Ok? <==> Holds(c, ids, es, c.fingerprint(c.pub(e.sk)))
  {
    assert (es + [e])[..|es|] == es;
    var mine, theirs := c.fingerprint(c.pub(e.sk)), c.fingerprint(e.pk);
    var found := Find(t.keys, mine);
    assert Holds(c, ids, es, mine) <==> found.Some?;
    if found.Some? {
      assert Usable(c, dek, pks, found, mine);
      UsableUnwraps(c, dek, pks, found.value, e.sk);
      var w := Wrap(c, dek, e.pk, stream, e.at);
      WrapMadeFor(c, dek, pks, e.pk, stream, e.at);
      var u := Apply(c, stream, t, e);
      assert u.keys == Without(t.keys, theirs) + [w];
      forall id
        ensures Find(u.keys, id) == if id == theirs then Some(w.wrappedDek) else Find(t.keys, id)
      {
        FindAppend(Without(t.keys, theirs), w, id);
        FindWithout(t.keys, theirs, id);
      }
    }
  }

  lemma DropKeeps(c: Crypto, stream: nat -> byte, dek: Bytes, pks: set<Bytes>, ids: set<Bytes>, es: seq<Event>,
                  s: Secret, t: Secret, e: Event)
    requires e.Drop? && Kept(c, dek, pks, ids, es, s, t)
    ensures Kept(c, dek, pks, ids, es + [e], s, Apply(c, stream, t, e))
  {
    assert (es + [e])[..|es|] == es;
    forall id ensures Find(Apply(c, stream, t, e).keys, id) == if id == e.id then None else Find(t.keys, id) {
      FindWithout(t.keys, e.id, id);
    }
  }

  lemma {:induction false} RunKeeps(c: Crypto, stream: nat -> byte, dek: Bytes, pks: set<Bytes>, ids: set<Bytes>,
                                    es: seq<Event>, s: Secret)
    requires CryptoOk(c) && DistinctIds(c, pks) && |dek| == DEK_LEN && Among(c, pks, es)
    requires Kept(c, dek, pks, ids, [], s, s)
    ensures Kept(c, dek, pks, ids, es, s, Run(c, stream, s, es))
    decreases |es|
  {
    if es != [] {
      var before, e := es[..|es| - 1], es[|es| - 1];
      assert es == before + [e];
      assert e == es[|es| - 1];
      RunKeeps(c, stream, dek, pks, ids, before, s);
      var t := Run(c, stream, s, before);
      if e.Grant? { GrantKeeps(c, stream, dek, pks, ids, before, s, t, e); }
      else { DropKeeps(c, stream, dek, pks, ids, before, s, t, e); }
    }
  }

  function Ids(c: Crypto, recipients: seq<Bytes>): set<Bytes> {
    set pk | pk in recipients :: c.fingerprint(pk)
  }

  lemma SealStarts(c: Crypto, stream: nat -> byte, at: nat, name: Bytes, plaintext: Bytes, recipients: seq<Bytes>,
                   pks: set<Bytes>)
    requires forall pk :: pk in recipients ==> pk in pks
    ensures var s := SealedSecret(c, name, plaintext, recipients, stream, at);
      Kept(c, Drawn(stream, at, DEK_LEN), pks, Ids(c, recipients), [], s, s)
  {
    var s := SealedSecret(c, name, plaintext, recipients, stream, at);
    var dek := Drawn(stream, at, DEK_LEN);
    var first := at + DEK_LEN + NONCE_LEN;
    forall i | 0 <= i < |s.keys|
      ensures s.keys[i].recipientId == c.fingerprint(recipients[i]) && MadeFor(c, dek, pks, s.keys[i])
    {
      WrapMadeFor(c, dek, pks, recipients[i], stream, first + i * WRAP_DRAW);
    }
    forall id
      ensures Find(s.keys, id).Some? <==> id in Ids(c, recipients)
      ensures Usable(c, dek, pks, Find(s.keys, id), id)
    {
      FindMember(s.keys, id);
      if Find(s.keys, id).Some? {
        var i :| 0 <= i < |s.keys| && s.keys[i] == WrappedKey(id, Find(s.keys, id).value);
        assert recipients[i] in recipients;
      }
      if id in Ids(c, recipients) {
        var pk :| pk in recipients && c.fingerprint(pk) == id;
        var i :| 0 <= i < |recipients| && recipients[i] == pk;
        assert s.keys[i].recipientId == id;
      }
    }
  }

  /** After any run an identity opens the secret to the sealed plaintext exactly when its last
      event was the seal or a grant, and is refused as a non-recipient otherwise; and the name,
      the nonce and the ciphertext are those of the seal. */
  lemma {:induction false} OpensExactlyHolders(c: Crypto, stream: nat -> byte, at: nat, name: Bytes, plaintext: Bytes,
                                               recipients: seq<Bytes>, es: seq<Event>, pks: set<Bytes>, sk: Bytes)
    requires CryptoOk(c) && DistinctIds(c, pks) && Among(c, pks, es) && c.pub(sk) in pks
    requires forall pk :: pk in recipients ==> pk in pks
    ensures var s := SealedSecret(c, name, plaintext, recipients, stream, at);
      && var t := Run(c, stream, s, es);
      && t.name == name && t.nonce == s.nonce && t.ciphertext == s.ciphertext
      && Open(c, t, sk) == if Holds(c, Ids(c, recipients), es, c.fingerprint(c.pub(sk))) then Ok(plaintext)
        else Err(NotARecipient)
  {
    var s := SealedSecret(c, name, plaintext, recipients, stream, at);
    var dek := Drawn(stream, at, DEK_LEN);
    SealStarts(c, stream, at, name, plaintext, recipients, pks);
    RunKeeps(c, stream, dek, pks, Ids(c, recipients), es, s);
    var t := Run(c, stream, s, es);
    var mine := c.fingerprint(c.pub(sk));
    var found := Find(t.keys, mine);
    assert Usable(c, dek, pks, found, mine);
    if found.Some? { UsableUnwraps(c, dek, pks, found.value, sk); }
  }

  /** A grant in a run is refused exactly when the granter does not hold the secret, and then
      changes nothing. */
  lemma {:induction false} GrantRefusedIff(c: Crypto, stream: nat -> byte, at: nat, name: Bytes, plaintext: Bytes,
                                           recipients: seq<Bytes>, es: seq<Event>, pks: set<Bytes>, e: Event)
    requires CryptoOk(c) && DistinctIds(c, pks) && Among(c, pks, es) && Among(c, pks, [e]) && e.Grant?
    requires forall pk :: pk in recipients ==> pk in pks
    ensures var t := Run(c, stream, SealedSecret(c, name, plaintext, recipients, stream, at), es);
      && (Rewrapped(c, t, e.sk, e.pk, stream, e.at).Err? <==>
        !Holds(c, Ids(c, recipients), es, c.fingerprint(c.pub(e.sk))))
      && (Rewrapped(c, t, e.sk, e.pk, stream, e.at).Err? ==> Apply(c, stream, t, e) == t)
  {
    var s := SealedSecret(c, name, plaintext, recipients, stream, at);
    var dek := Drawn(stream, at, DEK_LEN);
    SealStarts(c, stream, at, name, plaintext, recipients, pks);
    RunKeeps(c, stream, dek, pks, Ids(c, recipients), es, s);
    assert [e][0] == e;
    GrantKeeps(c, stream, dek, pks, Ids(c, recipients), es, s, Run(c, stream, s, es), e);
  }

  // ---- wraps per recipient ------------------------------------------------------------------------------

  predicate OnePerId(ws: seq<WrappedKey>) {
    forall i, j :: 0 <= i < j < |ws| ==> ws[i].recipientId != ws[j].recipientId
  }

  lemma {:induction false} WithoutSpec(ws: seq<WrappedKey>, id: Bytes)
    ensures forall w :: w in Without(ws, id) <==> w in ws && w.recipientId != id
    ensures OnePerId(ws) ==> OnePerId(Without(ws, id))
  {
    if ws != [] {
      WithoutSpec(ws[1..], id);
      var rest := Without(ws[1..], id);
      assert forall w :: w in ws <==> w == ws[0] || w in ws[1..];
      if OnePerId(ws) {
        assert OnePerId(ws[1..]);
        assert forall i :: 0 <= i < |rest| ==> rest[i] in rest;
        assert forall w :: w in ws[1..] ==> w.recipientId != ws[0].recipientId;
      }
    }
  }

  /** A secret sealed for distinct recipients has at most one wrap for each id after any run. */
  lemma {:induction false} RunKeepsOnePerId(c: Crypto, stream: nat -> byte, s: Secret, es: seq<Event>)
    requires OnePerId(s.keys)
    ensures OnePerId(Run(c, stream, s, es).keys)
    decreases |es|
  {
    if es != [] {
      RunKeepsOnePerId(c, stream, s, es[..|es| - 1]);
      var t := Run(c, stream, s, es[..|es| - 1]);
      match es[|es| - 1]
      case Grant(sk, pk, at) =>
        WithoutSpec(t.keys, c.fingerprint(pk));
        var rest := Without(t.keys, c.fingerprint(pk));
        assert forall i :: 0 <= i < |rest| ==> rest[i] in rest;
      case Drop(id) =>
        WithoutSpec(t.keys, id);
    }
  }
}
