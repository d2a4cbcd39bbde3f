/** The stable sort by a byte-string key, and exactly what it forgets about its input. */
module Sorting {
  import opened Octets

  function Insert<T>(x: T, xs: seq<T>, key: T -> Bytes): seq<T> {
    if xs == [] || LexLe(key(x), key(xs[0])) then [x] + xs
    else [xs[0]] + Insert(x, xs[1..], key)
  }

  function Sort<T>(xs: seq<T>, key: T -> Bytes): (ys: seq<T>)
  {
    if xs == [] then [] else Insert(xs[0], Sort(xs[1..], key), key)
  }

  ghost predicate Sorted<T>(xs: seq<T>, key: T -> Bytes) {
    forall i, j :: 0 <= i < j < |xs| ==> LexLe(key(xs[i]), key(xs[j]))
  }

  /** Strictly ascending keys: the iteration order of a `BTreeMap`. */
  predicate Ascending<T>(xs: seq<T>, key: T -> Bytes) {
    forall i, j :: 0 <= i < j < |xs| ==> LexLt(key(xs[i]), key(xs[j]))
  }

  /** The elements with key `k`, in their order in `xs`. */
  ghost function KeyClass<T>(xs: seq<T>, key: T -> Bytes, k: Bytes): seq<T> {
    if xs == [] then []
    else (if key(xs[0]) == k then [xs[0]] else []) + KeyClass(xs[1..], key, k)
  }

  ghost predicate SameClasses<T>(xs: seq<T>, ys: seq<T>, key: T -> Bytes) {
    forall k {:induction false} :: KeyClass(xs, key, k) == KeyClass(ys, key, k)
  }

  /** Elements of `xs` with equal keys are equal. */
  ghost predicate KeysDetermine<T>(xs: seq<T>, key: T -> Bytes) {
    forall i, j :: 0 <= i < |xs| && 0 <= j < |xs| && key(xs[i]) == key(xs[j]) ==> xs[i] == xs[j]
  }

  lemma {:induction false} InsertSpec<T>(x: T, xs: seq<T>, key: T -> Bytes)
    requires Sorted(xs, key)
    ensures Sorted(Insert(x, xs, key), key)
    ensures multiset(Insert(x, xs, key)) == multiset([x] + xs)
    ensures |Insert(x, xs, key)| == |xs| + 1
  {
    var ys := Insert(x, xs, key);
    if xs == [] {
    } else if LexLe(key(x), key(xs[0])) {
      forall j | 0 < j < |ys| ensures LexLe(key(x), key(ys[j])) {
        if j > 1 { LexTransitive(key(x), key(xs[0]), key(xs[j - 1])); }
      }
    } else {
      LexTotal(key(x), key(xs[0]));
      var zs := Insert(x, xs[1..], key);
      InsertSpec(x, xs[1..], key);
      assert xs == [xs[0]] + xs[1..];
      forall j | 0 <= j < |zs| ensures LexLe(key(xs[0]), key(zs[j])) {
        assert zs[j] in multiset(zs);
        assert zs[j] == x || zs[j] in xs[1..];
      }
    }
  }

  /** The sort returns a sorted rearrangement of its input. */
  lemma {:induction false} SortSpec<T>(xs: seq<T>, key: T -> Bytes)
    ensures Sorted(Sort(xs, key), key)
    ensures multiset(Sort(xs, key)) == multiset(xs)
    ensures |Sort(xs, key)| == |xs|
  {
    if xs != [] {
      SortSpec(xs[1..], key);
      InsertSpec(xs[0], Sort(xs[1..], key), key);
      assert xs == [xs[0]] + xs[1..];
    }
  }

  /** Sorting keeps every element and adds none. */
  lemma {:induction false} SortHolds<T>(xs: seq<T>, key: T -> Bytes, x: T)
    ensures x in Sort(xs, key) <==> x in xs
  {
    SortSpec(xs, key);
    assert x in Sort(xs, key) <==> x in multiset(Sort(xs, key));
    assert x in xs <==> x in multiset(xs);
  }

  lemma {:induction false} InsertStable<T>(x: T, xs: seq<T>, key: T -> Bytes, k: Bytes)
    ensures KeyClass(Insert(x, xs, key), key, k) == KeyClass([x] + xs, key, k)
  {
    assert ([x] + xs)[1..] == xs;
    if xs == [] || LexLe(key(x), key(xs[0])) {
    } else {
      InsertStable(x, xs[1..], key, k);
      LexReflexive(key(x));
      assert key(x) != key(xs[0]);
      assert ([x] + xs[1..])[1..] == xs[1..];
      assert Insert(x, xs, key)[1..] == Insert(x, xs[1..], key);
    }
  }

  /** Stability: within one key the input order survives. */
  lemma {:induction false} SortStable<T>(xs: seq<T>, key: T -> Bytes, k: Bytes)
    ensures KeyClass(Sort(xs, key), key, k) == KeyClass(xs, key, k)
  {
    if xs != [] {
      SortStable(xs[1..], key, k);
      InsertStable(xs[0], Sort(xs[1..], key), key, k);
      assert ([xs[0]] + Sort(xs[1..], key))[1..] == Sort(xs[1..], key);
    }
  }

  lemma {:induction false} ClassMember<T>(xs: seq<T>, key: T -> Bytes, k: Bytes) returns (i: nat)
    requires KeyClass(xs, key, k) != []
    ensures i < |xs| && key(xs[i]) == k
  {
    if key(xs[0]) == k {
      i := 0;
    } else {
      i := ClassMember(xs[1..], key, k);
      i := i + 1;
    }
  }

  /** Sorted lists with the same classes start with the same element. */
  lemma SameHead<T>(xs: seq<T>, ys: seq<T>, key: T -> Bytes)
    requires Sorted(xs, key) && Sorted(ys, key) && SameClasses(xs, ys, key) && xs != [] && ys != []
    ensures xs[0] == ys[0]
  {
    var k, q := key(xs[0]), key(ys[0]);
    assert KeyClass(ys, key, k) == KeyClass(xs, key, k) != [];
    assert KeyClass(xs, key, q) == KeyClass(ys, key, q) != [];
    var j := ClassMember(ys, key, k);
    var i := ClassMember(xs, key, q);
    LexReflexive(k);
    LexAntisymmetric(k, q);
    assert KeyClass(xs, key, k)[0] == xs[0] && KeyClass(ys, key, k)[0] == ys[0];
  }

  lemma {:induction false} TailClasses<T>(xs: seq<T>, ys: seq<T>, key: T -> Bytes, q: Bytes)
    requires xs != [] && ys != [] && xs[0] == ys[0] && KeyClass(xs, key, q) == KeyClass(ys, key, q)
    ensures KeyClass(xs[1..], key, q) == KeyClass(ys[1..], key, q)
  {
    var head := if key(xs[0]) == q then [xs[0]] else [];
    assert (head + KeyClass(xs[1..], key, q))[|head|..] == KeyClass(xs[1..], key, q);
    assert (head + KeyClass(ys[1..], key, q))[|head|..] == KeyClass(ys[1..], key, q);
  }

  /** A sorted list is determined by its key classes. */
  lemma {:induction false} SortedUnique<T>(xs: seq<T>, ys: seq<T>, key: T -> Bytes)
    requires Sorted(xs, key) && Sorted(ys, key)
    requires SameClasses(xs, ys, key)
    ensures xs == ys
  {
    if xs == [] {
      assert ys != [] ==> KeyClass(ys, key, key(ys[0])) != [];
    } else {
      assert KeyClass(xs, key, key(xs[0])) != [];
      assert ys != [];
      SameHead(xs, ys, key);
      forall q ensures KeyClass(xs[1..], key, q) == KeyClass(ys[1..], key, q) { TailClasses(xs, ys, key, q); }
      SortedUnique(xs[1..], ys[1..], key);
      assert xs == [xs[0]] + xs[1..] && ys == [ys[0]] + ys[1..];
    }
  }

  lemma {:induction false} SortKeepsClasses<T>(xs: seq<T>, key: T -> Bytes)
    ensures SameClasses(Sort(xs, key), xs, key)
  {
    forall k ensures KeyClass(Sort(xs, key), key, k) == KeyClass(xs, key, k) {
      SortStable(xs, key, k);
    }
  }

  /** What the stable sort forgets: exactly the order between different keys. */
  lemma {:induction false} SortEqualIff<T>(xs: seq<T>, ys: seq<T>, key: T -> Bytes)
    ensures Sort(xs, key) == Sort(ys, key) <==> SameClasses(xs, ys, key)
  {
    SortSpec(xs, key);
    SortSpec(ys, key);
    SortKeepsClasses(xs, key);
    SortKeepsClasses(ys, key);
    if SameClasses(xs, ys, key) {
      SortedUnique(Sort(xs, key), Sort(ys, key), key);
    }
  }

  lemma {:induction false} SortOfSorted<T>(xs: seq<T>, key: T -> Bytes)
    requires Sorted(xs, key)
    ensures Sort(xs, key) == xs
  {
    SortSpec(xs, key);
    SortKeepsClasses(xs, key);
    SortedUnique(Sort(xs, key), xs, key);
  }

  lemma {:induction false} ClassRepeats<T>(xs: seq<T>, key: T -> Bytes, x: T)
    requires forall i :: 0 <= i < |xs| && key(xs[i]) == key(x) ==> xs[i] == x
    ensures KeyClass(xs, key, key(x)) == seq(multiset(xs)[x], _ => x)
  {
    if xs != [] {
      ClassRepeats(xs[1..], key, x);
      assert xs == [xs[0]] + xs[1..];
    }
  }

  /** Where keys determine elements, any rearrangement sorts to the same list,
      so an unstable sort has only one possible result. */
  lemma {:induction false} RearrangementSortsAlike<T>(xs: seq<T>, ys: seq<T>, key: T -> Bytes)
    requires multiset(xs) == multiset(ys) && KeysDetermine(xs, key)
    ensures Sort(xs, key) == Sort(ys, key)
    ensures Sorted(ys, key) ==> ys == Sort(xs, key)
  {
    forall k ensures KeyClass(xs, key, k) == KeyClass(ys, key, k) {
      forall j | 0 <= j < |ys| ensures ys[j] in xs {
        assert ys[j] in multiset(ys);
      }
      if x :| x in xs && key(x) == k {
        ClassRepeats(xs, key, x);
        ClassRepeats(ys, key, x);
      } else {
        if KeyClass(xs, key, k) != [] { var i := ClassMember(xs, key, k); }
        if KeyClass(ys, key, k) != [] { var i := ClassMember(ys, key, k); }
      }
    }
    SortEqualIff(xs, ys, key);
    if Sorted(ys, key) { SortOfSorted(ys, key); }
  }

  // ---- repeated keys -------------------------------------------------------------------

  lemma {:induction false} ClassPositive<T>(xs: seq<T>, key: T -> Bytes, k: Bytes, i: nat)
    requires i < |xs| && key(xs[i]) == k
    ensures |KeyClass(xs, key, k)| >= 1
  {
    if i > 0 { ClassPositive(xs[1..], key, k, i - 1); }
  }

  lemma {:induction false} ClassLength<T>(xs: seq<T>, key: T -> Bytes, k: Bytes, i: nat, j: nat)
    requires i < j < |xs| && key(xs[i]) == k && key(xs[j]) == k
    ensures |KeyClass(xs, key, k)| >= 2
  {
    if i > 0 {
      ClassLength(xs[1..], key, k, i - 1, j - 1);
    } else {
      ClassPositive(xs[1..], key, k, j - 1);
    }
  }

  lemma {:induction false} ClassPair<T>(xs: seq<T>, key: T -> Bytes, k: Bytes) returns (i: nat, j: nat)
    requires |KeyClass(xs, key, k)| >= 2
    ensures i < j < |xs| && key(xs[i]) == k && key(xs[j]) == k
  {
    if key(xs[0]) == k {
      j := ClassMember(xs[1..], key, k);
      i, j := 0, j + 1;
    } else {
      i, j := ClassPair(xs[1..], key, k);
      i, j := i + 1, j + 1;
    }
  }

  /** Lists with the same key classes repeat the same keys. */
  lemma PairCarries<T>(xs: seq<T>, ys: seq<T>, key: T -> Bytes, i: nat, j: nat) returns (a: nat, b: nat)
    requires i < j < |xs| && key(xs[i]) == key(xs[j])
    requires SameClasses(xs, ys, key) || SameClasses(ys, xs, key)
    ensures a < b < |ys| && key(ys[a]) == key(ys[b])
  {
    ClassLength(xs, key, key(xs[i]), i, j);
    a, b := ClassPair(ys, key, key(xs[i]));
  }
}
