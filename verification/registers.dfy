/** The standing registers of a protected prefix: stamping a change with the next epoch, and what
    any run of changes leaves. */
module Registers {
  import opened Octets
  import opened Objects
  import opened Keyed

  type Entries = seq<RecipientEntry>

  /** At most one register for each key. */
  predicate OnePerKey(rs: Entries) { OneEach(rs, RegisterKey) }

  function Lookup(rs: Entries, key: Bytes): Option<RecipientEntry> { FindBy(rs, RegisterKey, key) }

  function Replace(e: RecipientEntry, r: RecipientEntry): RecipientEntry { r }

  function Stamped(rs: Entries, key: Bytes, epoch: nat, state: RecipientState): Entries {
    Absorb(rs, RegisterKey, Replace, RecipientEntry(key, epoch, state))
  }

  function MaxEpoch(rs: Entries): nat {
    if rs == [] then 0
    else
      var m := MaxEpoch(rs[..|rs| - 1]);
      if rs[|rs| - 1].epoch > m then rs[|rs| - 1].epoch else m
  }

  /** One more, in 32 bits: the addition wraps. */
  function Successor(epoch: nat): nat { if epoch + 1 == U32 then 0 else epoch + 1 }

  function NextEpoch(rs: Entries): nat { Successor(MaxEpoch(rs)) }

  function GrantedKeys(rs: Entries): seq<Bytes> {
    if rs == [] then []
    else GrantedKeys(rs[..|rs| - 1]) + (if rs[|rs| - 1].state == Granted then [rs[|rs| - 1].key] else [])
  }

  // ---- the rule as the program updates it ------------------------------------------------------

  class Rule {
    const prefix: Bytes
    var recipients: Entries

    constructor (prefix: Bytes, recipients: Entries)
      ensures this.prefix == prefix && this.recipients == recipients
    {
      this.prefix, this.recipients := prefix, recipients;
    }

    method SetStanding(key: Bytes, epoch: nat, state: RecipientState)
      modifies this
      ensures recipients == Stamped(old(recipients), key, epoch, state)
    {
      var i := FindIndex(recipients, RegisterKey, key);
      if i < |recipients| {
        recipients := recipients[i := recipients[i].(epoch := epoch, state := state)];
      } else {
        recipients := recipients + [RecipientEntry(key, epoch, state)];
      }
    }

    method HighestEpoch() returns (m: nat)
      ensures m == MaxEpoch(recipients)
    {
      m := 0;
      for i := 0 to |recipients|
        invariant m == MaxEpoch(recipients[..i])
      {
        assert recipients[..i + 1][..i] == recipients[..i];
        if recipients[i].epoch > m { m := recipients[i].epoch; }
      }
      assert recipients[..|recipients|] == recipients;
    }

    /** A change of standing: the next epoch, then the register. */
    method Change(key: Bytes, state: RecipientState)
      modifies this
      ensures recipients == Changed(old(recipients), Standing(key, state))
    {
      var m := HighestEpoch();
      SetStanding(key, Successor(m), state);
    }

    method Granted() returns (keys: seq<Bytes>)
      ensures keys == GrantedKeys(recipients)
    {
      keys := [];
      for i := 0 to |recipients|
        invariant keys == GrantedKeys(recipients[..i])
      {
        assert recipients[..i + 1][..i] == recipients[..i];
        if recipients[i].state == RecipientState.Granted { keys := keys + [recipients[i].key]; }
      }
      assert recipients[..|recipients|] == recipients;
    }
  }

  lemma {:induction false} MaxEpochSpec(rs: Entries)
    ensures forall i :: 0 <= i < |rs| ==> rs[i].epoch <= MaxEpoch(rs)
    ensures MaxEpoch(rs) == 0 || exists i :: 0 <= i < |rs| && rs[i].epoch == MaxEpoch(rs)
    decreases |rs|
  {
    if rs != [] {
      var before := rs[..|rs| - 1];
      MaxEpochSpec(before);
      assert forall i :: 0 <= i < |before| ==> rs[i] == before[i];
      if MaxEpoch(rs) == MaxEpoch(before) && MaxEpoch(rs) > 0 {
        var i :| 0 <= i < |before| && before[i].epoch == MaxEpoch(before);
        assert rs[i].epoch == MaxEpoch(rs);
      }
    }
  }

  // ---- one change ------------------------------------------------------------------------------

  lemma StampFinds(rs: Entries, key: Bytes, epoch: nat, state: RecipientState, k: Bytes)
    ensures Lookup(Stamped(rs, key, epoch, state), k) ==
      if k == key then Some(RecipientEntry(key, epoch, state)) else Lookup(rs, k)
  {
    assert KeepsKey(RegisterKey, Replace);
    AbsorbFind(rs, RegisterKey, Replace, RecipientEntry(key, epoch, state), k);
  }

  lemma StampKeepsOne(rs: Entries, key: Bytes, epoch: nat, state: RecipientState)
    requires OnePerKey(rs)
    ensures OnePerKey(Stamped(rs, key, epoch, state))
  {
    AbsorbOneIff(rs, RegisterKey, Replace, RecipientEntry(key, epoch, state));
  }

  lemma {:induction false} StampRaisesMax(rs: Entries, key: Bytes, epoch: nat, state: RecipientState)
    requires epoch > MaxEpoch(rs)
    ensures MaxEpoch(Stamped(rs, key, epoch, state)) == epoch
  {
    var ss := Stamped(rs, key, epoch, state);
    var i := IndexBy(rs, RegisterKey, key);
    assert ss[i].epoch == epoch;
    MaxEpochSpec(rs);
    MaxEpochSpec(ss);
    forall j | 0 <= j < |ss| ensures ss[j].epoch <= epoch {
      if j != i { assert ss[j] == rs[j]; }
    }
  }

  /** The next epoch beats every register exactly while 32 bits can hold it. */
  lemma {:induction false} NextEpochWinsIff(rs: Entries)
    requires forall i :: 0 <= i < |rs| ==> RegisterTyped(rs[i])
    ensures (forall i :: 0 <= i < |rs| ==> rs[i].epoch < NextEpoch(rs)) <==> MaxEpoch(rs) < U32 - 1
    ensures NextEpoch(rs) == (MaxEpoch(rs) + 1) % 0x1_0000_0000
  {
    MaxEpochSpec(rs);
    assert MaxEpoch(rs) < U32;
    if MaxEpoch(rs) == U32 - 1 {
      var i :| 0 <= i < |rs| && rs[i].epoch == MaxEpoch(rs);
      assert rs[i].epoch > NextEpoch(rs);
    }
  }

  lemma {:induction false} GrantedMember(rs: Entries, k: Bytes)
    ensures k in GrantedKeys(rs) <==> exists i :: 0 <= i < |rs| && rs[i].key == k && rs[i].state == Granted
    decreases |rs|
  {
    if rs != [] {
      var before, last := rs[..|rs| - 1], rs[|rs| - 1];
      GrantedMember(before, k);
      assert forall i :: 0 <= i < |before| ==> rs[i] == before[i];
      if k in GrantedKeys(before) {
        var i :| 0 <= i < |before| && before[i].key == k && before[i].state == Granted;
        assert rs[i].key == k && rs[i].state == Granted;
      }
      if last.key == k && last.state == Granted {
        assert rs[|rs| - 1].key == k && rs[|rs| - 1].state == Granted;
      }
    }
  }

  /** With one register for each key, the granted keys are those whose register says so. */
  lemma {:induction false} GrantedIff(rs: Entries, k: Bytes)
    requires OnePerKey(rs)
    ensures k in GrantedKeys(rs) <==> Lookup(rs, k).Some? && Lookup(rs, k).value.state == Granted
  {
    GrantedMember(rs, k);
    if k in GrantedKeys(rs) {
      var i :| 0 <= i < |rs| && rs[i].key == k && rs[i].state == Granted;
      FindAt(rs, RegisterKey, i);
    }
  }

  lemma {:induction false} GrantedOnce(rs: Entries)
    requires OnePerKey(rs)
    ensures forall i, j :: 0 <= i < j < |GrantedKeys(rs)| ==> GrantedKeys(rs)[i] != GrantedKeys(rs)[j]
    decreases |rs|
  {
    if rs != [] {
      var before, last := rs[..|rs| - 1], rs[|rs| - 1];
      GrantedOnce(before);
      GrantedMember(before, last.key);
      var ks := GrantedKeys(before);
      assert forall i :: 0 <= i < |ks| ==> ks[i] in ks;
    }
  }

  /** A register of `key` after its first one grants it. */
  predicate GrantedAgain(rs: Entries, key: Bytes) {
    exists i :: IndexBy(rs, RegisterKey, key) < i < |rs| && rs[i].key == key && rs[i].state == Granted
  }

  lemma {:induction false} StampAt(rs: Entries, key: Bytes, epoch: nat, state: RecipientState, i: nat)
    requires i < |Stamped(rs, key, epoch, state)|
    ensures var at := IndexBy(rs, RegisterKey, key);
      Stamped(rs, key, epoch, state)[i] == if i == at then RecipientEntry(key, epoch, state) else rs[i]
    ensures i < IndexBy(rs, RegisterKey, key) ==> rs[i].key != key
  {
  }

  /** A revoke reaches only the first register of its key: the key is out exactly when no later
      register of the same key grants it. */
  lemma RevokeTakesIff(rs: Entries, key: Bytes, epoch: nat)
    ensures key !in GrantedKeys(Stamped(rs, key, epoch, Revoked)) <==> !GrantedAgain(rs, key)
  {
    var ss := Stamped(rs, key, epoch, Revoked);
    var at := IndexBy(rs, RegisterKey, key);
    GrantedMember(ss, key);
    if key in GrantedKeys(ss) {
      var i :| 0 <= i < |ss| && ss[i].key == key && ss[i].state == Granted;
      StampAt(rs, key, epoch, Revoked, i);
      assert at < i && rs[i].key == key && rs[i].state == Granted;
    }
    if GrantedAgain(rs, key) {
      var i :| at < i < |rs| && rs[i].key == key && rs[i].state == Granted;
      StampAt(rs, key, epoch, Revoked, i);
      assert ss[i].key == key && ss[i].state == Granted;
    }
  }

  /** A rule that lists a key twice keeps it granted through a revoke. */
  lemma TwiceListedOutlivesRevoke(key: Bytes)
    ensures var rs := [RecipientEntry(key, 1, Granted), RecipientEntry(key, 1, Granted)];
      key in GrantedKeys(Stamped(rs, key, NextEpoch(rs), Revoked))
  {
    var rs := [RecipientEntry(key, 1, Granted), RecipientEntry(key, 1, Granted)];
    IndexUnique(rs, RegisterKey, key, 0);
    RevokeTakesIff(rs, key, NextEpoch(rs));
    assert rs[1].key == key && rs[1].state == Granted;
  }

  // ---- runs -------------------------------------------------------------------------------------

  datatype Change = Standing(key: Bytes, state: RecipientState)

  function Changed(rs: Entries, c: Change): Entries { Stamped(rs, c.key, NextEpoch(rs), c.state) }

  function Run(rs: Entries, cs: seq<Change>): Entries
    decreases |cs|
  {
    if cs == [] then rs else Changed(Run(rs, cs[..|cs| - 1]), cs[|cs| - 1])
  }

  /** The state of the last change of `key`, or its state before the run. */
  function LastState(rs: Entries, cs: seq<Change>, key: Bytes): Option<RecipientState>
    decreases |cs|
  {
    if cs == [] then
      (match Lookup(rs, key)
       case None => None
       case Some(r) => Some(r.state))
    else if cs[|cs| - 1].key == key then Some(cs[|cs| - 1].state)
    else LastState(rs, cs[..|cs| - 1], key)
  }

  /** Each change of a run raises the highest epoch by one: its epoch beats all earlier ones. */
  lemma {:induction false} EpochsRise(rs: Entries, cs: seq<Change>)
    requires MaxEpoch(rs) + |cs| < U32
    ensures MaxEpoch(Run(rs, cs)) == MaxEpoch(rs) + |cs|
    decreases |cs|
  {
    if cs != [] {
      var before, c := Run(rs, cs[..|cs| - 1]), cs[|cs| - 1];
      EpochsRise(rs, cs[..|cs| - 1]);
      StampRaisesMax(before, c.key, NextEpoch(before), c.state);
    }
  }

  lemma {:induction false} RunKeepsOne(rs: Entries, cs: seq<Change>)
    requires OnePerKey(rs)
    ensures OnePerKey(Run(rs, cs))
    decreases |cs|
  {
    if cs != [] {
      var before, c := Run(rs, cs[..|cs| - 1]), cs[|cs| - 1];
      RunKeepsOne(rs, cs[..|cs| - 1]);
      StampKeepsOne(before, c.key, NextEpoch(before), c.state);
    }
  }

  lemma {:induction false} RunStates(rs: Entries, cs: seq<Change>, key: Bytes)
    ensures LastState(rs, cs, key) == match Lookup(Run(rs, cs), key) case None => None case Some(r) => Some(r.state)
    decreases |cs|
  {
    if cs != [] {
      var before, c := Run(rs, cs[..|cs| - 1]), cs[|cs| - 1];
      RunStates(rs, cs[..|cs| - 1], key);
      StampFinds(before, c.key, NextEpoch(before), c.state, key);
    }
  }

  /** A key the run does not change keeps its register. */
  lemma {:induction false} Untouched(rs: Entries, cs: seq<Change>, key: Bytes)
    requires forall i :: 0 <= i < |cs| ==> cs[i].key != key
    ensures Lookup(Run(rs, cs), key) == Lookup(rs, key)
    decreases |cs|
  {
    if cs != [] {
      var before, c := Run(rs, cs[..|cs| - 1]), cs[|cs| - 1];
      Untouched(rs, cs[..|cs| - 1], key);
      StampFinds(before, c.key, NextEpoch(before), c.state, key);
    }
  }

  /** After every run of changes, each stamped with the next epoch, there is one register for each
      key, and the granted keys are exactly those whose last change was a grant, each once. */
  lemma {:induction false} RunGrants(rs: Entries, cs: seq<Change>)
    requires OnePerKey(rs)
    ensures OnePerKey(Run(rs, cs))
    ensures forall k :: k in GrantedKeys(Run(rs, cs)) <==> LastState(rs, cs, k) == Some(Granted)
    ensures var ks := GrantedKeys(Run(rs, cs)); forall i, j :: 0 <= i < j < |ks| ==> ks[i] != ks[j]
  {
    RunKeepsOne(rs, cs);
    GrantedOnce(Run(rs, cs));
    forall k ensures k in GrantedKeys(Run(rs, cs)) <==> LastState(rs, cs, k) == Some(Granted) {
      GrantedIff(Run(rs, cs), k);
      RunStates(rs, cs, k);
    }
  }

  /** The epoch given to the change after any run exceeds every epoch the run has given or found. */
  lemma {:induction false} LaterEpochsWin(rs: Entries, cs: seq<Change>, n: nat, i: nat)
    requires MaxEpoch(rs) + |cs| + 1 < U32 && n <= |cs| && i < |Run(rs, cs[..n])|
    ensures Run(rs, cs[..n])[i].epoch < NextEpoch(Run(rs, cs)) == MaxEpoch(rs) + |cs| + 1
  {
    EpochsRise(rs, cs);
    EpochsRise(rs, cs[..n]);
    MaxEpochSpec(Run(rs, cs[..n]));
  }

  /** A run that ends with a revoke leaves the tombstone at an epoch above all the run began with. */
  lemma {:induction false} RevokeStamped(rs: Entries, cs: seq<Change>, k: Bytes)
    requires MaxEpoch(rs) + |cs| + 1 < U32
    ensures Lookup(Run(rs, cs + [Standing(k, Revoked)]), k) == Some(RecipientEntry(k, MaxEpoch(rs) + |cs| + 1, Revoked))
  {
    RunAppend(rs, cs, Standing(k, Revoked));
    EpochsRise(rs, cs);
    RevokeNext(Run(rs, cs), MaxEpoch(rs) + |cs|, k);
  }

  lemma {:induction false} RunAppend(rs: Entries, cs: seq<Change>, c: Change)
    ensures Run(rs, cs + [c]) == Changed(Run(rs, cs), c)
  {
    assert (cs + [c])[..|cs|] == cs;
  }

  lemma {:induction false} RevokeNext(rs: Entries, m: nat, k: Bytes)
    requires MaxEpoch(rs) == m && m + 1 < U32
    ensures Lookup(Changed(rs, Standing(k, Revoked)), k) == Some(RecipientEntry(k, m + 1, Revoked))
  {
    StampFinds(rs, k, m + 1, Revoked, k);
  }

  lemma {:induction false} LookupEpoch(rs: Entries, k: Bytes)
    ensures Lookup(rs, k).Some? ==> Lookup(rs, k).value.epoch <= MaxEpoch(rs)
  {
    MaxEpochSpec(rs);
  }
}
