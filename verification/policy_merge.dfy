/** Merging two policies: prefixes unite, and each recipient's register is joined. */
module PolicyMerge {
  import opened Octets
  import opened Sorting
  import opened Objects
  import opened Keyed
  import opened Registers
  import opened Codec
  import CodecLaws

  type Policy = seq<ProtectPrefix>

  /** The higher epoch wins; at equal epochs a revoke wins. */
  function MergeRegister(e: RecipientEntry, r: RecipientEntry): RecipientEntry {
    if r.epoch > e.epoch || (r.epoch == e.epoch && r.state == Revoked)
    then e.(epoch := r.epoch, state := r.state) else e
  }

  function MergeRule(p: ProtectPrefix, q: ProtectPrefix): ProtectPrefix {
    p.(recipients := AbsorbAll(p.recipients, RegisterKey, MergeRegister, q.recipients))
  }

  function Merge(a: Policy, b: Policy): Policy { AbsorbAll([], PrefixName, MergeRule, a + b) }

  // ---- the merge as the program runs it -----------------------------------------------------------

  method MergeRecipients(es: Entries, rs: Entries) returns (out: Entries)
    ensures out == AbsorbAll(es, RegisterKey, MergeRegister, rs)
  {
    out := es;
    for i := 0 to |rs|
      invariant out == AbsorbAll(es, RegisterKey, MergeRegister, rs[..i])
    {
      AbsorbNext(es, RegisterKey, MergeRegister, rs, i);
      var r := rs[i];
      var at := FindIndex(out, RegisterKey, r.key);
      if at < |out| {
        if r.epoch > out[at].epoch || (r.epoch == out[at].epoch && r.state == Revoked) {
          out := out[at := out[at].(epoch := r.epoch, state := r.state)];
        }
      } else {
        out := out + [r];
      }
    }
    assert rs[..|rs|] == rs;
  }

  method MergePrefixes(a: Policy, b: Policy) returns (out: Policy)
    ensures out == Merge(a, b)
  {
    out := [];
    var ps := a + b;
    for i := 0 to |ps|
      invariant out == AbsorbAll([], PrefixName, MergeRule, ps[..i])
    {
      AbsorbNext([], PrefixName, MergeRule, ps, i);
      var at := FindIndex(out, PrefixName, ps[i].prefix);
      if at < |out| {
        var merged := MergeRecipients(out[at].recipients, ps[i].recipients);
        out := out[at := out[at].(recipients := merged)];
      } else {
        out := out + [ps[i]];
      }
    }
    assert ps[..|ps|] == ps;
  }

  // ---- what a policy says ------------------------------------------------------------------------------

  function RuleFor(ps: Policy, prefix: Bytes): Option<ProtectPrefix> { FindBy(ps, PrefixName, prefix) }

  datatype Mark = Mark(epoch: nat, state: RecipientState)

  /** Of two standings the later; at equal epochs the revoked one. */
  function Later(x: Option<Mark>, y: Option<Mark>): Option<Mark> {
    if x.None? then y
    else if y.None? then x
    else if y.value.epoch > x.value.epoch || (y.value.epoch == x.value.epoch && y.value.state == Revoked) then y
    else x
  }

  function MarkOf(r: RecipientEntry, key: Bytes): Option<Mark> {
    if r.key == key then Some(Mark(r.epoch, r.state)) else None
  }

  /** The strongest of all registers of a key, however many a rule lists. */
  function RuleStanding(rs: Entries, key: Bytes): Option<Mark> {
    if rs == [] then None else Later(RuleStanding(rs[..|rs| - 1], key), MarkOf(rs[|rs| - 1], key))
  }

  function StandingIn(p: ProtectPrefix, prefix: Bytes, key: Bytes): Option<Mark> {
    if p.prefix == prefix then RuleStanding(p.recipients, key) else None
  }

  /** The strongest of all registers of a key under a prefix, however many rules name it. */
  function StandingOf(ps: Policy, prefix: Bytes, key: Bytes): Option<Mark> {
    if ps == [] then None
    else Later(StandingOf(ps[..|ps| - 1], prefix, key), StandingIn(ps[|ps| - 1], prefix, key))
  }

  /** The same prefixes, and for each key the same standing. */
  ghost predicate SamePolicy(x: Policy, y: Policy) {
    && (forall n :: RuleFor(x, n).Some? <==> RuleFor(y, n).Some?)
    && (forall n, k :: StandingOf(x, n, k) == StandingOf(y, n, k))
  }

  lemma LaterLaws(x: Option<Mark>, y: Option<Mark>, z: Option<Mark>)
    ensures Later(x, y) == Later(y, x)
    ensures Later(Later(x, y), z) == Later(x, Later(y, z))
    ensures Later(x, x) == x
  {
  }

  /** `x` may be joined last. */
  lemma LaterSwap(a: Option<Mark>, x: Option<Mark>, b: Option<Mark>)
    ensures Later(Later(a, x), b) == Later(Later(a, b), x)
  {
    LaterLaws(a, x, b);
    LaterLaws(a, b, x);
    LaterLaws(x, b, x);
  }

  lemma MergesKeepKeys()
    ensures KeepsKey(RegisterKey, MergeRegister) && KeepsKey(PrefixName, MergeRule)
  {
  }

  // ---- the merge joins, whatever is listed twice -----------------------------------------------------------

  lemma {:induction false} RegisterRaised(rs: Entries, i: nat, e: RecipientEntry, x: Option<Mark>, k: Bytes)
    requires i < |rs| && MarkOf(e, k) == Later(MarkOf(rs[i], k), x)
    ensures RuleStanding(rs[i := e], k) == Later(RuleStanding(rs, k), x)
    decreases |rs|
  {
    var before, last := rs[..|rs| - 1], MarkOf(rs[|rs| - 1], k);
    if i == |rs| - 1 {
      assert rs[i := e][..|rs| - 1] == before;
      LaterLaws(RuleStanding(before, k), last, x);
    } else {
      assert rs[i := e][..|rs| - 1] == before[i := e];
      RegisterRaised(before, i, e, x, k);
      LaterSwap(RuleStanding(before, k), x, last);
    }
  }

  lemma {:induction false} RegisterAbsorbed(rs: Entries, r: RecipientEntry, k: Bytes)
    ensures RuleStanding(Absorb(rs, RegisterKey, MergeRegister, r), k) == Later(RuleStanding(rs, k), MarkOf(r, k))
  {
    var i := IndexBy(rs, RegisterKey, r.key);
    if i < |rs| {
      RegisterRaised(rs, i, MergeRegister(rs[i], r), MarkOf(r, k), k);
    } else {
      assert (rs + [r])[..|rs|] == rs;
    }
  }

  lemma {:induction false} RegistersAbsorbed(rs: Entries, qs: Entries, k: Bytes)
    ensures RuleStanding(AbsorbAll(rs, RegisterKey, MergeRegister, qs), k) ==
      Later(RuleStanding(rs, k), RuleStanding(qs, k))
    decreases |qs|
  {
    if qs != [] {
      var before, q := qs[..|qs| - 1], qs[|qs| - 1];
      RegistersAbsorbed(rs, before, k);
      RegisterAbsorbed(AbsorbAll(rs, RegisterKey, MergeRegister, before), q, k);
      LaterLaws(RuleStanding(rs, k), RuleStanding(before, k), MarkOf(q, k));
    }
  }

  lemma {:induction false} RuleRaised(ps: Policy, i: nat, p: ProtectPrefix, x: Option<Mark>, n: Bytes, k: Bytes)
    requires i < |ps| && StandingIn(p, n, k) == Later(StandingIn(ps[i], n, k), x)
    ensures StandingOf(ps[i := p], n, k) == Later(StandingOf(ps, n, k), x)
    decreases |ps|
  {
    var before, last := ps[..|ps| - 1], StandingIn(ps[|ps| - 1], n, k);
    if i == |ps| - 1 {
      assert ps[i := p][..|ps| - 1] == before;
      LaterLaws(StandingOf(before, n, k), last, x);
    } else {
      assert ps[i := p][..|ps| - 1] == before[i := p];
      RuleRaised(before, i, p, x, n, k);
      LaterSwap(StandingOf(before, n, k), x, last);
    }
  }

  lemma {:induction false} RuleAbsorbed(ps: Policy, q: ProtectPrefix, n: Bytes, k: Bytes)
    ensures StandingOf(Absorb(ps, PrefixName, MergeRule, q), n, k) == Later(StandingOf(ps, n, k), StandingIn(q, n, k))
  {
    var i := IndexBy(ps, PrefixName, q.prefix);
    if i < |ps| {
      RegistersAbsorbed(ps[i].recipients, q.recipients, k);
      RuleRaised(ps, i, MergeRule(ps[i], q), StandingIn(q, n, k), n, k);
    } else {
      assert (ps + [q])[..|ps|] == ps;
    }
  }

  lemma {:induction false} RulesAbsorbed(ps: Policy, qs: Policy, n: Bytes, k: Bytes)
    ensures StandingOf(AbsorbAll(ps, PrefixName, MergeRule, qs), n, k) ==
      Later(StandingOf(ps, n, k), StandingOf(qs, n, k))
    decreases |qs|
  {
    if qs != [] {
      var before, q := qs[..|qs| - 1], qs[|qs| - 1];
      RulesAbsorbed(ps, before, n, k);
      RuleAbsorbed(AbsorbAll(ps, PrefixName, MergeRule, before), q, n, k);
      LaterLaws(StandingOf(ps, n, k), StandingOf(before, n, k), StandingIn(q, n, k));
    }
  }

  /** For all policies: no prefix disappears, and each key's standing in the merge is the later of its
      standings on the two sides. */
  lemma {:induction false} MergeJoins(a: Policy, b: Policy, n: Bytes, k: Bytes)
    ensures RuleFor(Merge(a, b), n).Some? <==> RuleFor(a, n).Some? || RuleFor(b, n).Some?
    ensures StandingOf(Merge(a, b), n, k) == Later(StandingOf(a, n, k), StandingOf(b, n, k))
  {
    MergesKeepKeys();
    AbsorbConcat([], PrefixName, MergeRule, a, b);
    RulesAbsorbed([], a, n, k);
    RulesAbsorbed(AbsorbAll([], PrefixName, MergeRule, a), b, n, k);
    AbsorbAllLocal([], [], PrefixName, MergeRule, a, n);
    var merged := AbsorbAll([], PrefixName, MergeRule, a);
    AbsorbAllLocal(merged, merged, PrefixName, MergeRule, b, n);
  }

  /** For all policies: the order of the two sides does not matter. */
  lemma MergeCommutes(a: Policy, b: Policy)
    ensures SamePolicy(Merge(a, b), Merge(b, a))
  {
    forall n ensures RuleFor(Merge(a, b), n).Some? <==> RuleFor(Merge(b, a), n).Some? {
      MergeJoins(a, b, n, []);
      MergeJoins(b, a, n, []);
    }
    forall n, k ensures StandingOf(Merge(a, b), n, k) == StandingOf(Merge(b, a), n, k) {
      MergeJoins(a, b, n, k);
      MergeJoins(b, a, n, k);
      LaterLaws(StandingOf(a, n, k), StandingOf(b, n, k), None);
    }
  }

  /** For all policies: neither does the order in which three branches are merged. */
  lemma MergeAssociates(a: Policy, b: Policy, c: Policy)
    ensures SamePolicy(Merge(Merge(a, b), c), Merge(a, Merge(b, c)))
  {
    forall n ensures RuleFor(Merge(Merge(a, b), c), n).Some? <==> RuleFor(Merge(a, Merge(b, c)), n).Some? {
      ThreeJoins(a, b, c, n, []);
    }
    forall n, k ensures StandingOf(Merge(Merge(a, b), c), n, k) == StandingOf(Merge(a, Merge(b, c)), n, k) {
      ThreeJoins(a, b, c, n, k);
    }
  }

  lemma {:induction false} ThreeJoins(a: Policy, b: Policy, c: Policy, n: Bytes, k: Bytes)
    ensures RuleFor(Merge(Merge(a, b), c), n).Some? <==> RuleFor(Merge(a, Merge(b, c)), n).Some?
    ensures StandingOf(Merge(Merge(a, b), c), n, k) == StandingOf(Merge(a, Merge(b, c)), n, k)
  {
    MergeJoins(a, b, n, k);
    MergeJoins(b, c, n, k);
    MergeJoins(Merge(a, b), c, n, k);
    MergeJoins(a, Merge(b, c), n, k);
    LaterLaws(StandingOf(a, n, k), StandingOf(b, n, k), StandingOf(c, n, k));
  }

  /** For all policies: merging one with itself changes nothing. */
  lemma MergeIdempotent(a: Policy)
    ensures SamePolicy(Merge(a, a), a)
  {
    forall n ensures RuleFor(Merge(a, a), n).Some? <==> RuleFor(a, n).Some? { MergeJoins(a, a, n, []); }
    forall n, k ensures StandingOf(Merge(a, a), n, k) == StandingOf(a, n, k) {
      MergeJoins(a, a, n, k);
      LaterLaws(StandingOf(a, n, k), None, None);
    }
  }

  // ---- repeated prefixes and keys ----------------------------------------------------------------------------

  /** One rule for each prefix, and in each one register for each key. */
  predicate Tidy(ps: Policy) {
    OneEach(ps, PrefixName) && forall i :: 0 <= i < |ps| ==> OnePerKey(ps[i].recipients)
  }

  /** The first rule for the prefix lists no key twice. */
  ghost predicate FirstTidy(ps: Policy, n: Bytes) {
    RuleFor(ps, n).Some? ==> OnePerKey(RuleFor(ps, n).value.recipients)
  }

  /** A rule that collects others keeps just the repeated keys it began with. */
  lemma {:induction false} CollectedTidyIff(qs: Policy, n: Bytes)
    ensures FirstTidy(AbsorbAll([], PrefixName, MergeRule, qs), n) <==> FirstTidy(qs, n)
    ensures RuleFor(AbsorbAll([], PrefixName, MergeRule, qs), n).Some? <==> RuleFor(qs, n).Some?
    decreases |qs|
  {
    if qs != [] {
      var before, q := qs[..|qs| - 1], qs[|qs| - 1];
      CollectedTidyIff(before, n);
      CollectTidyStep(AbsorbAll([], PrefixName, MergeRule, before), before, q, n);
      assert before + [q] == qs;
    }
  }

  lemma CollectTidyStep(collected: Policy, before: Policy, q: ProtectPrefix, n: Bytes)
    requires FirstTidy(collected, n) <==> FirstTidy(before, n)
    requires RuleFor(collected, n).Some? <==> RuleFor(before, n).Some?
    ensures FirstTidy(Absorb(collected, PrefixName, MergeRule, q), n) <==> FirstTidy(before + [q], n)
    ensures RuleFor(Absorb(collected, PrefixName, MergeRule, q), n).Some? <==> RuleFor(before + [q], n).Some?
  {
    MergesKeepKeys();
    AbsorbFind(collected, PrefixName, MergeRule, q, n);
    FindAppend(before, PrefixName, q, n);
    if RuleFor(collected, n).Some? { RuleStaysTidyIff(RuleFor(collected, n).value, q); }
  }

  lemma RuleStaysTidyIff(p: ProtectPrefix, q: ProtectPrefix)
    ensures OnePerKey(MergeRule(p, q).recipients) <==> OnePerKey(p.recipients)
  {
    MergesKeepKeys();
    AbsorbAllOneIff(p.recipients, RegisterKey, MergeRegister, q.recipients);
  }

  /** For all policies the merge has one rule for each prefix; and one register for each key exactly
      when, for each prefix, the first rule that names it has. */
  lemma MergeTidyIff(a: Policy, b: Policy)
    ensures OneEach(Merge(a, b), PrefixName)
    ensures Tidy(Merge(a, b)) <==> forall n :: FirstTidy(a + b, n)
  {
    var m := Merge(a, b);
    MergesKeepKeys();
    AbsorbAllOneIff([], PrefixName, MergeRule, a + b);
    forall n ensures FirstTidy(m, n) <==> FirstTidy(a + b, n) { CollectedTidyIff(a + b, n); }
    if forall n :: FirstTidy(a + b, n) {
      forall i | 0 <= i < |m| ensures OnePerKey(m[i].recipients) {
        FindAt(m, PrefixName, i);
        assert FirstTidy(m, PrefixName(m[i])) <==> FirstTidy(a + b, PrefixName(m[i]));
      }
    }
    if Tidy(m) {
      forall n ensures FirstTidy(a + b, n) { assert FirstTidy(m, n); }
    }
  }

  lemma {:induction false} FirstOf(a: Policy, b: Policy, n: Bytes)
    ensures RuleFor(a + b, n) == if RuleFor(a, n).Some? then RuleFor(a, n) else RuleFor(b, n)
    decreases |b|
  {
    if b == [] {
      assert a + b == a;
    } else {
      FirstOf(a, b[..|b| - 1], n);
      assert a + b == (a + b[..|b| - 1]) + [b[|b| - 1]];
      FindAppend(a + b[..|b| - 1], PrefixName, b[|b| - 1], n);
      FindAppend(b[..|b| - 1], PrefixName, b[|b| - 1], n);
      assert b == b[..|b| - 1] + [b[|b| - 1]];
    }
  }

  /** Where nothing is listed twice, the standing is the one register's. */
  lemma {:induction false} OneRegister(rs: Entries, k: Bytes)
    requires OnePerKey(rs)
    ensures RuleStanding(rs, k) == if Lookup(rs, k).Some? then MarkOf(Lookup(rs, k).value, k) else None
    decreases |rs|
  {
    if rs != [] {
      var before, r := rs[..|rs| - 1], rs[|rs| - 1];
      OneRegister(before, k);
      FindAppend(before, RegisterKey, r, k);
      assert before + [r] == rs;
      FindNone(before, RegisterKey, k);
    }
  }

  lemma {:induction false} OneRuleStands(ps: Policy, n: Bytes, k: Bytes)
    requires OneEach(ps, PrefixName)
    ensures StandingOf(ps, n, k) == if RuleFor(ps, n).Some? then RuleStanding(RuleFor(ps, n).value.recipients, k)
      else None
    decreases |ps|
  {
    if ps != [] {
      var before, p := ps[..|ps| - 1], ps[|ps| - 1];
      OneRuleStands(before, n, k);
      FindAppend(before, PrefixName, p, n);
      assert before + [p] == ps;
      FindNone(before, PrefixName, n);
    }
  }

  // ---- encodings ------------------------------------------------------------------------------------------

  /** The rules of both have the same registers, in whatever order. */
  ghost predicate SameRegisters(x: Option<ProtectPrefix>, y: Option<ProtectPrefix>) {
    && (x.Some? <==> y.Some?)
    && (x.Some? ==> SameClasses(x.value.recipients, y.value.recipients, RegisterKey))
  }

  lemma {:induction false} CanonFinds(ps: Policy, n: Bytes)
    ensures RuleFor(CanonEach(ps), n) == match RuleFor(ps, n) case None => None case Some(p) => Some(CanonPrefix(p))
  {
    assert forall i :: 0 <= i < |ps| ==> PrefixName(CanonEach(ps)[i]) == PrefixName(ps[i]);
    IndexUnique(CanonEach(ps), PrefixName, n, IndexBy(ps, PrefixName, n));
  }

  lemma {:induction false} CanonOneEach(ps: Policy)
    requires OneEach(ps, PrefixName)
    ensures OneEach(CanonEach(ps), PrefixName)
  {
    assert forall i :: 0 <= i < |ps| ==> PrefixName(CanonEach(ps)[i]) == PrefixName(ps[i]);
  }

  lemma {:induction false} CanonRulesAgree(x: Policy, y: Policy, n: Bytes)
    ensures RuleFor(CanonEach(x), n) == RuleFor(CanonEach(y), n) <==> SameRegisters(RuleFor(x, n), RuleFor(y, n))
  {
    CanonFinds(x, n);
    CanonFinds(y, n);
    if RuleFor(x, n).Some? && RuleFor(y, n).Some? {
      var p, q := RuleFor(x, n).value, RuleFor(y, n).value;
      SortEqualIff(p.recipients, q.recipients, RegisterKey);
      assert CanonPrefix(p) == CanonPrefix(q) <==> Sort(p.recipients, RegisterKey) == Sort(q.recipients, RegisterKey);
    }
  }

  /** With one rule for each prefix, the bytes agree exactly when the rules have the same registers. */
  lemma RulesEncodeAlikeIff(s: Snapshot, x: Policy, y: Policy)
    requires OneEach(x, PrefixName) && OneEach(y, PrefixName)
    requires SnapshotTyped(s.(prefixes := x)) && SnapshotTyped(s.(prefixes := y))
    ensures Encode(SnapshotObject(s.(prefixes := x))) == Encode(SnapshotObject(s.(prefixes := y)))
            <==> forall n :: SameRegisters(RuleFor(x, n), RuleFor(y, n))
  {
    var t := s.(prefixes := x);
    assert t.(prefixes := y) == s.(prefixes := y);
    CodecLaws.PrefixOrderExact(t, y);
    SameClassesIff(x, y);
  }

  lemma {:induction false} SameClassesIff(x: Policy, y: Policy)
    requires OneEach(x, PrefixName) && OneEach(y, PrefixName)
    ensures SameClasses(CanonEach(x), CanonEach(y), PrefixName) <==>
      forall n :: SameRegisters(RuleFor(x, n), RuleFor(y, n))
  {
    var cx, cy := CanonEach(x), CanonEach(y);
    CanonOneEach(x);
    CanonOneEach(y);
    forall n ensures KeyClass(cx, PrefixName, n) == KeyClass(cy, PrefixName, n) <==>
      SameRegisters(RuleFor(x, n), RuleFor(y, n)) {
      ClassIsFound(cx, PrefixName, n);
      ClassIsFound(cy, PrefixName, n);
      CanonRulesAgree(x, y, n);
    }
  }

  /** Registers of rules that list no key twice and stand for the same. */
  lemma {:induction false} SameStandingsSameRegisters(rs: Entries, qs: Entries)
    requires OnePerKey(rs) && OnePerKey(qs) && forall k :: RuleStanding(rs, k) == RuleStanding(qs, k)
    ensures SameClasses(rs, qs, RegisterKey)
  {
    forall k ensures FindBy(rs, RegisterKey, k) == FindBy(qs, RegisterKey, k) {
      OneRegister(rs, k);
      OneRegister(qs, k);
      assert RuleStanding(rs, k) == RuleStanding(qs, k);
    }
    SameFoundSortAlike(rs, qs, RegisterKey);
  }

  /** Snapshots whose tidy policies say the same have the same bytes, and so the same id. */
  lemma SamePolicyEncodesAlike(s: Snapshot, x: Policy, y: Policy)
    requires Tidy(x) && Tidy(y) && SamePolicy(x, y)
    requires SnapshotTyped(s.(prefixes := x)) && SnapshotTyped(s.(prefixes := y))
    ensures Encode(SnapshotObject(s.(prefixes := x))) == Encode(SnapshotObject(s.(prefixes := y)))
  {
    forall n ensures SameRegisters(RuleFor(x, n), RuleFor(y, n)) {
      if RuleFor(x, n).Some? { RulesStandAlike(x, y, n); }
    }
    RulesEncodeAlikeIff(s, x, y);
  }

  lemma RulesStandAlike(x: Policy, y: Policy, n: Bytes)
    requires OneEach(x, PrefixName) && OneEach(y, PrefixName) && SamePolicy(x, y) && RuleFor(x, n).Some?
    requires FirstTidy(x, n) && FirstTidy(y, n)
    ensures SameRegisters(RuleFor(x, n), RuleFor(y, n))
  {
    var rs, qs := RuleFor(x, n).value.recipients, RuleFor(y, n).value.recipients;
    forall k ensures RuleStanding(rs, k) == RuleStanding(qs, k) {
      OneRuleStands(x, n, k);
      OneRuleStands(y, n, k);
      assert StandingOf(x, n, k) == StandingOf(y, n, k);
    }
    SameStandingsSameRegisters(rs, qs);
  }

  /** A prefix that one side alone names is collected from the same rules in either order. */
  lemma OneSided(a: Policy, b: Policy, n: Bytes)
    requires RuleFor(a, n).None? || RuleFor(b, n).None?
    ensures RuleFor(Merge(a, b), n) == RuleFor(Merge(b, a), n)
  {
    MergesKeepKeys();
    AbsorbConcat([], PrefixName, MergeRule, a, b);
    AbsorbConcat([], PrefixName, MergeRule, b, a);
    var ma, mb := AbsorbAll([], PrefixName, MergeRule, a), AbsorbAll([], PrefixName, MergeRule, b);
    AbsorbAllLocal([], [], PrefixName, MergeRule, a, n);
    AbsorbAllLocal([], [], PrefixName, MergeRule, b, n);
    if RuleFor(b, n).None? {
      AbsorbAllLocal(ma, ma, PrefixName, MergeRule, b, n);
      AbsorbAllLocal(mb, [], PrefixName, MergeRule, a, n);
    } else {
      AbsorbAllLocal(mb, mb, PrefixName, MergeRule, a, n);
      AbsorbAllLocal(ma, [], PrefixName, MergeRule, b, n);
    }
  }

  /** Both sides name the prefix. */
  ghost predicate Shared(a: Policy, b: Policy, n: Bytes) { RuleFor(a, n).Some? && RuleFor(b, n).Some? }

  lemma MergedFirst(a: Policy, b: Policy, n: Bytes)
    requires RuleFor(a, n).Some?
    ensures RuleFor(Merge(a, b), n).Some? && (FirstTidy(Merge(a, b), n) <==> FirstTidy(a, n))
  {
    CollectedTidyIff(a + b, n);
    FirstOf(a, b, n);
  }

  // ---- revokes last -------------------------------------------------------------------------------------------

  function MergeAll(a: Policy, bs: seq<Policy>): Policy
    decreases |bs|
  {
    if bs == [] then a else Merge(MergeAll(a, bs[..|bs| - 1]), bs[|bs| - 1])
  }

  lemma {:induction false} StandingHasRule(ps: Policy, n: Bytes, k: Bytes)
    requires StandingOf(ps, n, k).Some?
    ensures RuleFor(ps, n).Some?
    decreases |ps|
  {
    var before, p := ps[..|ps| - 1], ps[|ps| - 1];
    FindAppend(before, PrefixName, p, n);
    assert before + [p] == ps;
    if StandingOf(before, n, k).Some? { StandingHasRule(before, n, k); }
  }

  /** A key that stands revoked is not granted by a rule that lists no key twice. */
  lemma {:induction false} RevokedNotGranted(m: Policy, n: Bytes, k: Bytes)
    requires OneEach(m, PrefixName) && RuleFor(m, n).Some? && FirstTidy(m, n)
    requires StandingOf(m, n, k).Some? && StandingOf(m, n, k).value.state == Revoked
    ensures k !in GrantedKeys(RuleFor(m, n).value.recipients)
  {
    OneRuleStands(m, n, k);
    OneRegister(RuleFor(m, n).value.recipients, k);
    GrantedIff(RuleFor(m, n).value.recipients, k);
  }

  lemma {:induction false} RevokedInMerge(a: Policy, b: Policy, n: Bytes, k: Bytes)
    requires StandingOf(a, n, k).Some? && StandingOf(a, n, k).value.state == Revoked
    requires StandingOf(b, n, k).Some? ==> StandingOf(b, n, k).value.epoch <= StandingOf(a, n, k).value.epoch
    ensures StandingOf(Merge(a, b), n, k) == StandingOf(a, n, k)
    ensures RuleFor(a, n).Some? && RuleFor(Merge(a, b), n).Some? && (FirstTidy(Merge(a, b), n) <==> FirstTidy(a, n))
    ensures FirstTidy(a, n) ==> k !in GrantedKeys(RuleFor(Merge(a, b), n).value.recipients)
  {
    MergeJoins(a, b, n, k);
    StandingHasRule(a, n, k);
    MergedFirst(a, b, n);
    MergeTidyIff(a, b);
    if FirstTidy(a, n) { RevokedNotGranted(Merge(a, b), n, k); }
  }

  /** A tombstone survives merging any number of branches, whatever they list twice, that hold no newer
      register of the key; and the key is then granted by nobody, if the rule it is in began tidy. */
  lemma {:induction false} TombstoneSurvives(a: Policy, bs: seq<Policy>, n: Bytes, k: Bytes)
    requires StandingOf(a, n, k).Some? && StandingOf(a, n, k).value.state == Revoked
    requires forall i :: 0 <= i < |bs| && StandingOf(bs[i], n, k).Some? ==>
      StandingOf(bs[i], n, k).value.epoch <= StandingOf(a, n, k).value.epoch
    ensures StandingOf(MergeAll(a, bs), n, k) == StandingOf(a, n, k)
    ensures RuleFor(MergeAll(a, bs), n).Some? && (FirstTidy(MergeAll(a, bs), n) <==> FirstTidy(a, n))
    ensures bs != [] && FirstTidy(a, n) ==> k !in GrantedKeys(RuleFor(MergeAll(a, bs), n).value.recipients)
    decreases |bs|
  {
    StandingHasRule(a, n, k);
    if bs != [] {
      TombstoneSurvives(a, bs[..|bs| - 1], n, k);
      RevokedInMerge(MergeAll(a, bs[..|bs| - 1]), bs[|bs| - 1], n, k);
    }
  }

  /** Fork a rule; on one side any changes and then a revoke of a recipient, on the other any
      changes that leave that recipient alone: in the merge, in either order, it is revoked. */
  lemma {:induction false} ForkedRevokeHolds(p: ProtectPrefix, ours: seq<Change>, theirs: seq<Change>, k: Bytes)
    requires OnePerKey(p.recipients) && MaxEpoch(p.recipients) + |ours| + 1 < U32
    requires forall i :: 0 <= i < |theirs| ==> theirs[i].key != k
    ensures var a := p.(recipients := Run(p.recipients, ours + [Standing(k, Revoked)]));
      && var b := p.(recipients := Run(p.recipients, theirs));
      && RuleFor(Merge([a], [b]), p.prefix).Some? && RuleFor(Merge([b], [a]), p.prefix).Some?
      && k !in GrantedKeys(RuleFor(Merge([a], [b]), p.prefix).value.recipients)
      && k !in GrantedKeys(RuleFor(Merge([b], [a]), p.prefix).value.recipients)
  {
    var rs, all := p.recipients, ours + [Standing(k, Revoked)];
    RunKeepsOne(rs, all);
    RunKeepsOne(rs, theirs);
    RevokeStamped(rs, ours, k);
    Untouched(rs, theirs, k);
    LookupEpoch(rs, k);
    TombstoneWins(p.(recipients := Run(rs, all)), p.(recipients := Run(rs, theirs)), p.prefix, k);
  }

  lemma TombstoneWins(a: ProtectPrefix, b: ProtectPrefix, n: Bytes, k: Bytes)
    requires a.prefix == n && b.prefix == n && OnePerKey(a.recipients) && OnePerKey(b.recipients)
    requires Lookup(a.recipients, k).Some? && Lookup(a.recipients, k).value.state == Revoked
    requires Lookup(b.recipients, k).Some? ==>
      Lookup(b.recipients, k).value.epoch <= Lookup(a.recipients, k).value.epoch
    ensures RuleFor(Merge([a], [b]), n).Some? && RuleFor(Merge([b], [a]), n).Some?
    ensures k !in GrantedKeys(RuleFor(Merge([a], [b]), n).value.recipients)
    ensures k !in GrantedKeys(RuleFor(Merge([b], [a]), n).value.recipients)
  {
    OneRule(a, k);
    OneRule(b, k);
    RevokedInMerge([a], [b], n, k);
    MergeCommutes([a], [b]);
    assert StandingOf(Merge([b], [a]), n, k) == StandingOf(Merge([a], [b]), n, k);
    MergedFirst([b], [a], n);
    MergeTidyIff([b], [a]);
    RevokedNotGranted(Merge([b], [a]), n, k);
  }

  lemma {:induction false} OneRule(p: ProtectPrefix, k: Bytes)
    requires OnePerKey(p.recipients)
    ensures RuleFor([p], p.prefix) == Some(p) && FirstTidy([p], p.prefix)
    ensures StandingOf([p], p.prefix, k) ==
      if Lookup(p.recipients, k).Some? then MarkOf(Lookup(p.recipients, k).value, k) else None
  {
    FindAt([p], PrefixName, 0);
    OneRuleStands([p], p.prefix, k);
    OneRegister(p.recipients, k);
  }
}
