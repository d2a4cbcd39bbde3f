/** The bytes the encoder may write. It sorts the registers of a rule with an unstable sort, so where a
    key is listed twice with different registers their order is the sort's to choose. */
module CodecOrders {
  import opened Octets
  import opened Sorting
  import opened Objects
  import opened Codec

  // ---- possible layouts -------------------------------------------------------------------------

  predicate SameRule(p: ProtectPrefix, q: ProtectPrefix) {
    p.prefix == q.prefix && multiset(p.recipients) == multiset(q.recipients)
  }

  /** `q` is `p` with its registers sorted by key, in whatever order among equal keys. */
  ghost predicate LaidOut(p: ProtectPrefix, q: ProtectPrefix) { SameRule(p, q) && Sorted(q.recipients, RegisterKey) }

  ghost predicate AllLaidOut(ps: seq<ProtectPrefix>, qs: seq<ProtectPrefix>) {
    |qs| == |ps| && forall i :: 0 <= i < |ps| ==> LaidOut(ps[i], qs[i])
  }

  /** `w` is `o` with its fields in an order the encoder may write. */
  ghost predicate Layout(o: Object, w: Object) {
    match o
    case SnapshotObject(s) =>
      && w.SnapshotObject? && w.snap == s.(prefixes := w.snap.prefixes)
      && AllLaidOut(Sort(s.prefixes, PrefixName), w.snap.prefixes)
    case _ => w == Canon(o)
  }

  ghost predicate MayEncode(o: Object, b: Bytes) { exists w :: Typed(w) && Layout(o, w) && b == Print(w) }

  lemma CanonIsLayout(o: Object)
    requires Typed(o)
    ensures Typed(Canon(o)) && Layout(o, Canon(o)) && MayEncode(o, Encode(o))
  {
    CanonKeepsTyped(o);
    if o.SnapshotObject? {
      var ps := Sort(o.snap.prefixes, PrefixName);
      forall i | 0 <= i < |ps| ensures LaidOut(ps[i], CanonEach(ps)[i]) { SortSpec(ps[i].recipients, RegisterKey); }
    }
  }

  lemma SameSize<T>(xs: seq<T>, ys: seq<T>)
    requires multiset(xs) == multiset(ys)
    ensures |xs| == |ys|
  {
    assert |multiset(xs)| == |xs| && |multiset(ys)| == |ys|;
  }

  lemma LayoutTyped(o: Object, w: Object)
    requires Typed(o) && Layout(o, w)
    ensures Typed(w)
  {
    CanonKeepsTyped(o);
    if o.SnapshotObject? {
      var ps := Sort(o.snap.prefixes, PrefixName);
      SortSpec(o.snap.prefixes, PrefixName);
      SortKeepsTyped(o.snap.prefixes, PrefixName, PrefixTyped);
      forall i | 0 <= i < |ps| ensures PrefixTyped(w.snap.prefixes[i]) { LaidOutTyped(ps[i], w.snap.prefixes[i]); }
    }
  }

  lemma LaidOutTyped(p: ProtectPrefix, q: ProtectPrefix)
    requires PrefixTyped(p) && SameRule(p, q)
    ensures PrefixTyped(q)
  {
    SameSize(p.recipients, q.recipients);
    forall i | 0 <= i < |q.recipients| ensures RegisterTyped(q.recipients[i]) {
      assert q.recipients[i] in multiset(q.recipients);
    }
  }

  lemma PrintInjective(v: Object, w: Object)
    requires Typed(v) && Typed(w) && Print(v) == Print(w)
    ensures v == w
  {
    PrintRoundTrip(v);
    PrintRoundTrip(w);
  }

  // ---- which objects share bytes -------------------------------------------------------------------

  ghost predicate SameRules(ps: seq<ProtectPrefix>, qs: seq<ProtectPrefix>) {
    |ps| == |qs| && forall i :: 0 <= i < |ps| ==> SameRule(ps[i], qs[i])
  }

  /** The same up to the order of registers within a rule, and whatever the sorts forget. */
  ghost predicate SameUpToOrder(o: Object, q: Object) {
    if o.SnapshotObject? then
      && q.SnapshotObject? && q.snap == o.snap.(prefixes := q.snap.prefixes)
      && SameRules(Sort(o.snap.prefixes, PrefixName), Sort(q.snap.prefixes, PrefixName))
    else !q.SnapshotObject? && Canon(o) == Canon(q)
  }

  lemma SharedLayout(o: Object, q: Object, w: Object)
    requires Layout(o, w)
    ensures Layout(q, w) <==> SameUpToOrder(o, q)
  {
    if o.SnapshotObject? && q.SnapshotObject? {
      var ps, qs := Sort(o.snap.prefixes, PrefixName), Sort(q.snap.prefixes, PrefixName);
      if Layout(q, w) {
        forall i | 0 <= i < |ps| ensures SameRule(ps[i], qs[i]) {
          assert LaidOut(ps[i], w.snap.prefixes[i]) && LaidOut(qs[i], w.snap.prefixes[i]);
        }
      }
      if SameUpToOrder(o, q) {
        forall i | 0 <= i < |qs| ensures LaidOut(qs[i], w.snap.prefixes[i]) {
          assert LaidOut(ps[i], w.snap.prefixes[i]) && SameRule(ps[i], qs[i]);
        }
      }
    } else {
      CanonKeepsKind(o);
      CanonKeepsKind(q);
    }
  }

  lemma CanonKeepsKind(o: Object)
    ensures Canon(o).SnapshotObject? <==> o.SnapshotObject?
  {
  }

  /** Two objects may have the same bytes exactly when they are the same up to order; then they may have
      exactly the same bytes, and otherwise no bytes at all in common, however the sort chooses. */
  lemma MayEncodeMeetIff(o: Object, q: Object)
    requires Typed(o) && Typed(q)
    ensures (exists b :: MayEncode(o, b) && MayEncode(q, b)) <==> SameUpToOrder(o, q)
    ensures SameUpToOrder(o, q) ==> forall b :: MayEncode(o, b) <==> MayEncode(q, b)
  {
    if b :| MayEncode(o, b) && MayEncode(q, b) { MeetingBytes(o, q, b); }
    if SameUpToOrder(o, q) {
      forall b ensures MayEncode(o, b) <==> MayEncode(q, b) { SameBytes(o, q, b); }
      CanonIsLayout(o);
      assert MayEncode(q, Encode(o));
    }
  }

  lemma MeetingBytes(o: Object, q: Object, b: Bytes)
    requires MayEncode(o, b) && MayEncode(q, b)
    ensures SameUpToOrder(o, q)
  {
    var v :| Typed(v) && Layout(o, v) && b == Print(v);
    var w :| Typed(w) && Layout(q, w) && b == Print(w);
    PrintInjective(v, w);
    SharedLayout(o, q, v);
  }

  lemma SameBytes(o: Object, q: Object, b: Bytes)
    requires SameUpToOrder(o, q)
    ensures MayEncode(o, b) <==> MayEncode(q, b)
  {
    if MayEncode(o, b) {
      var w :| Typed(w) && Layout(o, w) && b == Print(w);
      SharedLayout(o, q, w);
    }
    if MayEncode(q, b) {
      var w :| Typed(w) && Layout(q, w) && b == Print(w);
      assert SameUpToOrder(q, o);
      SharedLayout(q, o, w);
    }
  }

  /** For all rules, whatever they list twice: rearranging registers does not change the bytes that may
      be written. */
  lemma RegistersRearranged(s: Snapshot, i: nat, rs: seq<RecipientEntry>)
    requires i < |s.prefixes| && multiset(s.prefixes[i].recipients) == multiset(rs) && SnapshotTyped(s)
    ensures var t := s.(prefixes := s.prefixes[i := s.prefixes[i].(recipients := rs)]);
      forall b :: MayEncode(SnapshotObject(s), b) <==> MayEncode(SnapshotObject(t), b)
  {
    var t := s.(prefixes := s.prefixes[i := s.prefixes[i].(recipients := rs)]);
    SortKeepsRules(s.prefixes, t.prefixes);
    assert SameUpToOrder(SnapshotObject(s), SnapshotObject(t));
    forall b ensures MayEncode(SnapshotObject(s), b) <==> MayEncode(SnapshotObject(t), b) {
      SameBytes(SnapshotObject(s), SnapshotObject(t), b);
    }
  }

  lemma {:induction false} InsertKeepsRules(p: ProtectPrefix, q: ProtectPrefix, ps: seq<ProtectPrefix>,
                                            qs: seq<ProtectPrefix>)
    requires SameRule(p, q) && SameRules(ps, qs)
    ensures SameRules(Insert(p, ps, PrefixName), Insert(q, qs, PrefixName))
  {
    if ps != [] && !LexLe(p.prefix, ps[0].prefix) {
      assert SameRule(ps[0], qs[0]);
      assert forall i :: 0 <= i < |ps[1..]| ==> ps[1..][i] == ps[i + 1] && qs[1..][i] == qs[i + 1];
      InsertKeepsRules(p, q, ps[1..], qs[1..]);
    } else if ps != [] {
      assert SameRule(ps[0], qs[0]);
    }
  }

  lemma {:induction false} SortKeepsRules(ps: seq<ProtectPrefix>, qs: seq<ProtectPrefix>)
    requires SameRules(ps, qs)
    ensures SameRules(Sort(ps, PrefixName), Sort(qs, PrefixName))
  {
    if ps != [] {
      assert forall i :: 0 <= i < |ps[1..]| ==> ps[1..][i] == ps[i + 1] && qs[1..][i] == qs[i + 1];
      SortKeepsRules(ps[1..], qs[1..]);
      InsertKeepsRules(ps[0], qs[0], Sort(ps[1..], PrefixName), Sort(qs[1..], PrefixName));
    }
  }

  // ---- when the bytes are one ------------------------------------------------------------------------

  /** The encoder has only one choice exactly when no rule lists two different registers for a key. */
  lemma OneEncodingIff(o: Object)
    requires Typed(o)
    ensures (forall b :: MayEncode(o, b) ==> b == Encode(o)) <==> WellFormed(o)
  {
    CanonIsLayout(o);
    if WellFormed(o) {
      forall b | MayEncode(o, b) ensures b == Encode(o) {
        var w :| Typed(w) && Layout(o, w) && b == Print(w);
        WellFormedLayout(o, w);
      }
    } else {
      var w := OtherLayout(o);
      LayoutTyped(o, w);
      assert MayEncode(o, Print(w));
      if Print(w) == Encode(o) { PrintInjective(w, Canon(o)); }
    }
  }

  lemma WellFormedLayout(o: Object, w: Object)
    requires WellFormed(o) && Layout(o, w)
    ensures w == Canon(o)
  {
    if o.SnapshotObject? {
      var ps := Sort(o.snap.prefixes, PrefixName);
      SortSpec(o.snap.prefixes, PrefixName);
      forall i | 0 <= i < |ps| ensures w.snap.prefixes[i] == CanonPrefix(ps[i]) {
        assert LaidOut(ps[i], w.snap.prefixes[i]);
        assert ps[i] in multiset(ps) && ps[i] in o.snap.prefixes;
        RearrangementSortsAlike(ps[i].recipients, w.snap.prefixes[i].recipients, RegisterKey);
      }
      assert w.snap.prefixes == CanonEach(ps);
    }
  }

  /** A rule that lists different registers for a key can be laid out in two ways. */
  lemma OtherOrder(p: ProtectPrefix) returns (q: ProtectPrefix)
    requires !RegistersDistinct(p)
    ensures LaidOut(p, q) && q != CanonPrefix(p)
  {
    var ss := Sort(p.recipients, RegisterKey);
    SortSpec(p.recipients, RegisterKey);
    var k, l := TwoRegisters(p.recipients, ss);
    q := p.(recipients := ss[k := ss[l]][l := ss[k]]);
    SwapKeeps(ss, k, l);
    assert q.recipients[k] != ss[k];
  }

  lemma TwoRegisters(rs: seq<RecipientEntry>, ss: seq<RecipientEntry>) returns (k: nat, l: nat)
    requires multiset(rs) == multiset(ss) && !KeysDetermine(rs, RegisterKey)
    ensures k < |ss| && l < |ss| && ss[k].key == ss[l].key && ss[k] != ss[l]
  {
    var i, j :| 0 <= i < |rs| && 0 <= j < |rs| && RegisterKey(rs[i]) == RegisterKey(rs[j]) && rs[i] != rs[j];
    k := PositionOf(rs, ss, i);
    l := PositionOf(rs, ss, j);
  }

  lemma PositionOf<T>(xs: seq<T>, ys: seq<T>, i: nat) returns (k: nat)
    requires multiset(xs) == multiset(ys) && i < |xs|
    ensures k < |ys| && ys[k] == xs[i]
  {
    assert xs[i] in multiset(ys);
    k :| 0 <= k < |ys| && ys[k] == xs[i];
  }

  lemma SwapKeeps(ss: seq<RecipientEntry>, k: nat, l: nat)
    requires k < |ss| && l < |ss| && k != l && ss[k].key == ss[l].key && Sorted(ss, RegisterKey)
    ensures Sorted(ss[k := ss[l]][l := ss[k]], RegisterKey)
    ensures multiset(ss[k := ss[l]][l := ss[k]]) == multiset(ss)
  {
    var ts := ss[k := ss[l]][l := ss[k]];
    assert forall i :: 0 <= i < |ss| ==> RegisterKey(ts[i]) == RegisterKey(ss[i]);
  }

  lemma OtherLayout(o: Object) returns (w: Object)
    requires Typed(o) && !WellFormed(o)
    ensures Layout(o, w) && w != Canon(o)
  {
    var ps := Sort(o.snap.prefixes, PrefixName);
    SortSpec(o.snap.prefixes, PrefixName);
    CanonIsLayout(o);
    var i :| 0 <= i < |o.snap.prefixes| && !RegistersDistinct(o.snap.prefixes[i]);
    var j := PositionOf(o.snap.prefixes, ps, i);
    var q := OtherOrder(ps[j]);
    OneRuleOther(ps, CanonEach(ps), j, q);
    w := SnapshotObject(o.snap.(prefixes := CanonEach(ps)[j := q]));
  }

  lemma OneRuleOther(ps: seq<ProtectPrefix>, cs: seq<ProtectPrefix>, j: nat, q: ProtectPrefix)
    requires AllLaidOut(ps, cs) && j < |ps| && LaidOut(ps[j], q) && q != cs[j]
    ensures AllLaidOut(ps, cs[j := q]) && cs[j := q] != cs
  {
    assert cs[j := q][j] != cs[j];
  }
}
