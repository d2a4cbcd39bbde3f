/** Whether the bytes of a merge tell which side came first: exactly the registers that the first
    rules of shared prefixes repeat. */
module MergeOrder {
  import opened Octets
  import opened Sorting
  import opened Objects
  import opened Keyed
  import opened Registers
  import opened Codec
  import opened CodecOrders
  import opened PolicyMerge

  // ---- the registers of one key -----------------------------------------------------------------

  function HeadMark(c: Entries): Option<Mark> { if c == [] then None else Some(Mark(c[0].epoch, c[0].state)) }

  /** All but the first. */
  function Repeats(c: Entries): Entries { if c == [] then [] else c[1..] }

  ghost function ClassOf(rs: Entries, k: Bytes): Entries { KeyClass(rs, RegisterKey, k) }

  /** The registers of the key, past its first, in the first rule for the prefix. */
  ghost function FirstRepeats(ps: Policy, n: Bytes, k: Bytes): Entries {
    if RuleFor(ps, n).None? then [] else Repeats(ClassOf(RuleFor(ps, n).value.recipients, k))
  }

  lemma {:induction false} ClassKeys(rs: Entries, k: Bytes)
    ensures forall i :: 0 <= i < |ClassOf(rs, k)| ==> ClassOf(rs, k)[i].key == k
  {
    if rs != [] {
      ClassKeys(rs[1..], k);
      var head := if RegisterKey(rs[0]) == k then [rs[0]] else [];
      assert ClassOf(rs, k) == head + ClassOf(rs[1..], k);
    }
  }

  lemma {:induction false} ClassAppend(rs: Entries, r: RecipientEntry, k: Bytes)
    ensures ClassOf(rs + [r], k) == ClassOf(rs, k) + (if r.key == k then [r] else [])
  {
    if rs == [] {
      assert rs + [r] == [r];
    } else {
      ClassAppend(rs[1..], r, k);
      assert (rs + [r])[1..] == rs[1..] + [r];
    }
  }

  /** Replacing the first register of a key. */
  lemma {:induction false} ClassReplace(rs: Entries, i: nat, e: RecipientEntry, k: Bytes)
    requires i < |rs| && i == IndexBy(rs, RegisterKey, e.key) && rs[i].key == e.key
    ensures k != e.key ==> ClassOf(rs[i := e], k) == ClassOf(rs, k)
    ensures k == e.key ==>
      ClassOf(rs, k) != [] && ClassOf(rs, k)[0] == rs[i] && ClassOf(rs[i := e], k) == [e] + ClassOf(rs, k)[1..]
  {
    if i == 0 {
      assert rs[0 := e][1..] == rs[1..];
    } else {
      ClassReplace(rs[1..], i - 1, e, k);
      assert rs[i := e][1..] == rs[1..][i - 1 := e] && rs[i := e][0] == rs[0];
    }
  }

  /** Absorbing a register joins it into the first of its key and leaves the repeats. */
  lemma AbsorbClass(rs: Entries, r: RecipientEntry, k: Bytes)
    ensures var c, d := ClassOf(rs, k), ClassOf(Absorb(rs, RegisterKey, MergeRegister, r), k);
      Repeats(d) == Repeats(c) && HeadMark(d) == Later(HeadMark(c), MarkOf(r, k))
  {
    var i := IndexBy(rs, RegisterKey, r.key);
    if i < |rs| {
      var e := MergeRegister(rs[i], r);
      ClassReplace(rs, i, e, k);
    } else {
      ClassAppend(rs, r, k);
      if r.key == k { NoClass(rs, k); }
    }
  }

  lemma {:induction false} NoClass(rs: Entries, k: Bytes)
    requires forall j :: 0 <= j < |rs| ==> RegisterKey(rs[j]) != k
    ensures ClassOf(rs, k) == []
  {
    if rs != [] {
      assert RegisterKey(rs[0]) != k;
      NoClass(rs[1..], k);
    }
  }

  lemma {:induction false} AbsorbAllClass(rs: Entries, qs: Entries, k: Bytes)
    ensures var c, d := ClassOf(rs, k), ClassOf(AbsorbAll(rs, RegisterKey, MergeRegister, qs), k);
      Repeats(d) == Repeats(c) && HeadMark(d) == Later(HeadMark(c), RuleStanding(qs, k))
    decreases |qs|
  {
    if qs != [] {
      var before, q := qs[..|qs| - 1], qs[|qs| - 1];
      AbsorbAllClass(rs, before, k);
      AbsorbClass(AbsorbAll(rs, RegisterKey, MergeRegister, before), q, k);
      LaterLaws(HeadMark(ClassOf(rs, k)), RuleStanding(before, k), MarkOf(q, k));
    }
  }

  // ---- a rule's standing is its first mark and its repeats -------------------------------------------

  lemma {:induction false} StandingCons(r: RecipientEntry, rs: Entries, k: Bytes)
    ensures RuleStanding([r] + rs, k) == Later(MarkOf(r, k), RuleStanding(rs, k))
    decreases |rs|
  {
    if rs == [] {
      assert [r] + rs == [r] && [r][..0] == [];
    } else {
      var before, q := rs[..|rs| - 1], rs[|rs| - 1];
      StandingCons(r, before, k);
      assert ([r] + rs)[..|rs|] == [r] + before;
      LaterLaws(MarkOf(r, k), RuleStanding(before, k), MarkOf(q, k));
    }
  }

  lemma {:induction false} StandingOfClass(rs: Entries, k: Bytes)
    ensures RuleStanding(rs, k) == RuleStanding(ClassOf(rs, k), k)
  {
    if rs != [] {
      var c := ClassOf(rs[1..], k);
      StandingOfClass(rs[1..], k);
      assert rs == [rs[0]] + rs[1..];
      StandingCons(rs[0], rs[1..], k);
      if rs[0].key == k {
        StandingCons(rs[0], c, k);
      } else {
        assert [] + c == c;
      }
    }
  }

  lemma {:induction false} StandingSplits(rs: Entries, k: Bytes)
    ensures RuleStanding(rs, k) == Later(HeadMark(ClassOf(rs, k)), RuleStanding(Repeats(ClassOf(rs, k)), k))
  {
    var c := ClassOf(rs, k);
    StandingOfClass(rs, k);
    ClassKeys(rs, k);
    if c != [] {
      assert c == [c[0]] + c[1..];
      StandingCons(c[0], c[1..], k);
    }
  }

  // ---- merged rules -----------------------------------------------------------------------------------

  function RegistersFor(ps: Policy, n: Bytes): Entries {
    if RuleFor(ps, n).None? then [] else RuleFor(ps, n).value.recipients
  }

  function Collected(qs: Policy): Policy { AbsorbAll([], PrefixName, MergeRule, qs) }

  /** Absorbing rules into a policy that has one for the prefix. */
  lemma {:induction false} RulesHead(ps: Policy, qs: Policy, n: Bytes, k: Bytes)
    requires RuleFor(ps, n).Some?
    ensures var all := AbsorbAll(ps, PrefixName, MergeRule, qs);
      && RuleFor(all, n).Some?
      && var c, d := ClassOf(RegistersFor(ps, n), k), ClassOf(RegistersFor(all, n), k);
      && Repeats(d) == Repeats(c) && HeadMark(d) == Later(HeadMark(c), StandingOf(qs, n, k))
    decreases |qs|
  {
    if qs != [] {
      var before, q := qs[..|qs| - 1], qs[|qs| - 1];
      RulesHead(ps, before, n, k);
      MergesKeepKeys();
      var all := AbsorbAll(ps, PrefixName, MergeRule, before);
      AbsorbFind(all, PrefixName, MergeRule, q, n);
      if q.prefix == n { AbsorbAllClass(RegistersFor(all, n), q.recipients, k); }
      LaterLaws(HeadMark(ClassOf(RegistersFor(ps, n), k)), StandingOf(before, n, k), StandingIn(q, n, k));
    }
  }

  /** Collecting a policy's rules keeps the repeats of the first rule for each prefix. */
  lemma {:induction false} CollectedRepeats(qs: Policy, n: Bytes, k: Bytes)
    ensures RuleFor(Collected(qs), n).Some? <==> RuleFor(qs, n).Some?
    ensures FirstRepeats(Collected(qs), n, k) == FirstRepeats(qs, n, k)
    decreases |qs|
  {
    if qs != [] {
      var before, q := qs[..|qs| - 1], qs[|qs| - 1];
      CollectedRepeats(before, n, k);
      MergesKeepKeys();
      AbsorbFind(Collected(before), PrefixName, MergeRule, q, n);
      FindAppend(before, PrefixName, q, n);
      assert before + [q] == qs;
      if q.prefix == n && RuleFor(before, n).Some? {
        AbsorbAllClass(RegistersFor(Collected(before), n), q.recipients, k);
      }
    }
  }

  /** The first register that collecting a policy gives the key. */
  ghost function CollectedHead(ps: Policy, n: Bytes, k: Bytes): Option<Mark> {
    HeadMark(ClassOf(RegistersFor(Collected(ps), n), k))
  }

  lemma {:induction false} CollectedStanding(ps: Policy, n: Bytes, k: Bytes)
    requires RuleFor(ps, n).Some?
    ensures StandingOf(ps, n, k) == Later(CollectedHead(ps, n, k), RuleStanding(FirstRepeats(ps, n, k), k))
  {
    CollectedRepeats(ps, n, k);
    RulesAbsorbed([], ps, n, k);
    MergesKeepKeys();
    AbsorbAllOneIff([], PrefixName, MergeRule, ps);
    OneRuleStands(Collected(ps), n, k);
    StandingSplits(RegistersFor(Collected(ps), n), k);
  }

  /** What the merge keeps for a key of a shared prefix: one register joined from everything but the
      first side's repeats, and those repeats. */
  lemma {:induction false} MergedClass(a: Policy, b: Policy, n: Bytes, k: Bytes)
    requires Shared(a, b, n)
    ensures RuleFor(Merge(a, b), n).Some?
    ensures var c := ClassOf(RegistersFor(Merge(a, b), n), k);
      && Repeats(c) == FirstRepeats(a, n, k)
      && HeadMark(c) == Later(CollectedHead(a, n, k),
                              Later(CollectedHead(b, n, k), RuleStanding(FirstRepeats(b, n, k), k)))
  {
    AbsorbConcat([], PrefixName, MergeRule, a, b);
    CollectedRepeats(a, n, k);
    RulesHead(Collected(a), b, n, k);
    CollectedStanding(b, n, k);
  }

  lemma ClassByMarks(c: Entries, d: Entries, k: Bytes)
    requires forall i :: 0 <= i < |c| ==> c[i].key == k
    requires forall i :: 0 <= i < |d| ==> d[i].key == k
    requires HeadMark(c) == HeadMark(d) && Repeats(c) == Repeats(d)
    ensures c == d
  {
    if c != [] {
      assert c == [c[0]] + c[1..] && d == [d[0]] + d[1..];
    }
  }

  lemma SharedClassesAgree(a: Policy, b: Policy, n: Bytes, k: Bytes)
    requires Shared(a, b, n)
    ensures ClassOf(RegistersFor(Merge(a, b), n), k) == ClassOf(RegistersFor(Merge(b, a), n), k)
            <==> FirstRepeats(a, n, k) == FirstRepeats(b, n, k)
  {
    MergedClass(a, b, n, k);
    MergedClass(b, a, n, k);
    var c, d := ClassOf(RegistersFor(Merge(a, b), n), k), ClassOf(RegistersFor(Merge(b, a), n), k);
    ClassKeys(RegistersFor(Merge(a, b), n), k);
    ClassKeys(RegistersFor(Merge(b, a), n), k);
    var ha, hb, r := CollectedHead(a, n, k), CollectedHead(b, n, k), RuleStanding(FirstRepeats(a, n, k), k);
    LaterLaws(ha, hb, r);
    LaterLaws(hb, ha, r);
    if FirstRepeats(a, n, k) == FirstRepeats(b, n, k) { ClassByMarks(c, d, k); }
  }

  lemma SharedRegistersAgree(a: Policy, b: Policy, n: Bytes)
    requires Shared(a, b, n)
    ensures SameRegisters(RuleFor(Merge(a, b), n), RuleFor(Merge(b, a), n))
            <==> forall k :: FirstRepeats(a, n, k) == FirstRepeats(b, n, k)
  {
    var rs, qs := RegistersFor(Merge(a, b), n), RegistersFor(Merge(b, a), n);
    forall k
      ensures KeyClass(rs, RegisterKey, k) == KeyClass(qs, RegisterKey, k)
              <==> FirstRepeats(a, n, k) == FirstRepeats(b, n, k)
    {
      SharedClassesAgree(a, b, n, k);
    }
    MergedClass(a, b, n, []);
    MergedClass(b, a, n, []);
  }

  // ---- the bytes ----------------------------------------------------------------------------------------

  /** The first rules of every prefix that both sides name repeat the same registers of each key. */
  ghost predicate SameRepeats(a: Policy, b: Policy) {
    forall n, k :: Shared(a, b, n) ==> FirstRepeats(a, n, k) == FirstRepeats(b, n, k)
  }

  /** For all policies: a merge snapshot has the same bytes whichever branch was merged into which,
      exactly when the first rules of each shared prefix repeat the same registers. */
  lemma MergeOrderExact(s: Snapshot, a: Policy, b: Policy)
    requires SnapshotTyped(s.(prefixes := Merge(a, b))) && SnapshotTyped(s.(prefixes := Merge(b, a)))
    ensures Encode(SnapshotObject(s.(prefixes := Merge(a, b)))) == Encode(SnapshotObject(s.(prefixes := Merge(b, a))))
            <==> SameRepeats(a, b)
  {
    var x, y := Merge(a, b), Merge(b, a);
    MergeTidyIff(a, b);
    MergeTidyIff(b, a);
    RulesEncodeAlikeIff(s, x, y);
    forall n
      ensures SameRegisters(RuleFor(x, n), RuleFor(y, n))
              <==> (Shared(a, b, n) ==> forall k :: FirstRepeats(a, n, k) == FirstRepeats(b, n, k))
    {
      if Shared(a, b, n) { SharedRegistersAgree(a, b, n); } else { OneSided(a, b, n); }
    }
  }

  /** The two merges of a snapshot. */
  function Merged(s: Snapshot, a: Policy, b: Policy): Object { SnapshotObject(s.(prefixes := Merge(a, b))) }

  /** Then the encoder may write exactly the same bytes for both, whatever its unstable sort does. */
  lemma SameRepeatsSameBytes(s: Snapshot, a: Policy, b: Policy, bytes: Bytes)
    requires Typed(Merged(s, a, b)) && Typed(Merged(s, b, a)) && SameRepeats(a, b)
    ensures MayEncode(Merged(s, a, b), bytes) <==> MayEncode(Merged(s, b, a), bytes)
  {
    var o, q := Merged(s, a, b), Merged(s, b, a);
    MergeOrderExact(s, a, b);
    CanonIsLayout(o);
    CanonIsLayout(q);
    assert MayEncode(o, Encode(o)) && MayEncode(q, Encode(o));
    MayEncodeMeetIff(o, q);
  }

  /** Where neither merge lists two different registers for a key, the encoder has one choice for each,
      and the bytes it writes agree exactly under the same condition. */
  lemma MergeBytesExact(s: Snapshot, a: Policy, b: Policy, c: Bytes, d: Bytes)
    requires WellFormed(Merged(s, a, b)) && WellFormed(Merged(s, b, a))
    requires MayEncode(Merged(s, a, b), c) && MayEncode(Merged(s, b, a), d)
    ensures c == d <==> SameRepeats(a, b)
  {
    OneEncodingIff(Merged(s, a, b));
    OneEncodingIff(Merged(s, b, a));
    MergeOrderExact(s, a, b);
  }

  lemma TidyHasNoRepeats(ps: Policy, n: Bytes)
    ensures FirstTidy(ps, n) <==> forall k :: FirstRepeats(ps, n, k) == []
  {
    if RuleFor(ps, n).Some? {
      var rs := RuleFor(ps, n).value.recipients;
      if OnePerKey(rs) {
        forall k ensures FirstRepeats(ps, n, k) == [] { ClassIsFound(rs, RegisterKey, k); }
      }
      if forall k :: FirstRepeats(ps, n, k) == [] {
        forall i, j | 0 <= i < j < |rs| ensures RegisterKey(rs[i]) != RegisterKey(rs[j]) {
          assert FirstRepeats(ps, n, RegisterKey(rs[i])) == [];
          if RegisterKey(rs[i]) == RegisterKey(rs[j]) { ClassLength(rs, RegisterKey, RegisterKey(rs[i]), i, j); }
        }
      }
    }
  }

  /** So it has if those rules list no key twice. */
  lemma MergeOrderForgotten(s: Snapshot, a: Policy, b: Policy)
    requires forall n :: Shared(a, b, n) ==> FirstTidy(a, n) && FirstTidy(b, n)
    requires SnapshotTyped(s.(prefixes := Merge(a, b))) && SnapshotTyped(s.(prefixes := Merge(b, a)))
    ensures Encode(SnapshotObject(s.(prefixes := Merge(a, b)))) == Encode(SnapshotObject(s.(prefixes := Merge(b, a))))
  {
    forall n, k | Shared(a, b, n) ensures FirstRepeats(a, n, k) == FirstRepeats(b, n, k) {
      TidyHasNoRepeats(a, n);
      TidyHasNoRepeats(b, n);
    }
    MergeOrderExact(s, a, b);
  }

  /** And not if one of them alone does. */
  lemma MergeOrderShows(s: Snapshot, a: Policy, b: Policy, n: Bytes)
    requires Shared(a, b, n) && FirstTidy(a, n) != FirstTidy(b, n)
    requires SnapshotTyped(s.(prefixes := Merge(a, b))) && SnapshotTyped(s.(prefixes := Merge(b, a)))
    ensures Encode(SnapshotObject(s.(prefixes := Merge(a, b)))) != Encode(SnapshotObject(s.(prefixes := Merge(b, a))))
  {
    TidyHasNoRepeats(a, n);
    TidyHasNoRepeats(b, n);
    MergeOrderExact(s, a, b);
    assert SameRepeats(a, b) ==> forall k :: FirstRepeats(a, n, k) == FirstRepeats(b, n, k);
  }
}
