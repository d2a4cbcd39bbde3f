/** Lists searched by key: the first element with a key, and absorbing an element into the one
    with its key or at the end. */
module Keyed {
  import opened Octets
  import opened Sorting

  /** The first position with key `k`, or the length. */
  function IndexBy<T>(xs: seq<T>, key: T -> Bytes, k: Bytes): (i: nat)
    ensures i <= |xs|
    ensures i < |xs| ==> key(xs[i]) == k
    ensures forall j :: 0 <= j < i ==> key(xs[j]) != k
  {
    if xs == [] || key(xs[0]) == k then 0 else 1 + IndexBy(xs[1..], key, k)
  }

  function FindBy<T>(xs: seq<T>, key: T -> Bytes, k: Bytes): Option<T> {
    var i := IndexBy(xs, key, k);
    if i < |xs| then Some(xs[i]) else None
  }

  method FindIndex<T>(xs: seq<T>, key: T -> Bytes, k: Bytes) returns (i: nat)
    ensures i == IndexBy(xs, key, k)
  {
    i := 0;
    while i < |xs| && key(xs[i]) != k
      invariant i <= |xs| && forall j :: 0 <= j < i ==> key(xs[j]) != k
    {
      i := i + 1;
    }
    IndexUnique(xs, key, k, i);
  }

  predicate OneEach<T>(xs: seq<T>, key: T -> Bytes) {
    forall i, j :: 0 <= i < j < |xs| ==> key(xs[i]) != key(xs[j])
  }

  /** Join `x` into the first element with its key, or append it. */
  function Absorb<T>(xs: seq<T>, key: T -> Bytes, join: (T, T) -> T, x: T): seq<T> {
    var i := IndexBy(xs, key, key(x));
    if i < |xs| then xs[i := join(xs[i], x)] else xs + [x]
  }

  function AbsorbAll<T>(xs: seq<T>, key: T -> Bytes, join: (T, T) -> T, ys: seq<T>): seq<T>
    decreases |ys|
  {
    if ys == [] then xs
    else Absorb(AbsorbAll(xs, key, join, ys[..|ys| - 1]), key, join, ys[|ys| - 1])
  }

  ghost predicate KeepsKey<T(!new)>(key: T -> Bytes, join: (T, T) -> T) {
    forall x, y :: key(x) == key(y) ==> key(join(x, y)) == key(x)
  }

  function JoinFound<T>(join: (T, T) -> T, a: Option<T>, b: Option<T>): Option<T> {
    if a.None? then b else if b.None? then a else Some(join(a.value, b.value))
  }

  lemma {:induction false} IndexUnique<T>(xs: seq<T>, key: T -> Bytes, k: Bytes, i: nat)
    requires i <= |xs| && (i < |xs| ==> key(xs[i]) == k) && forall j :: 0 <= j < i ==> key(xs[j]) != k
    ensures IndexBy(xs, key, k) == i
  {
    var h := IndexBy(xs, key, k);
    assert h < |xs| ==> key(xs[h]) == k;
    assert i < |xs| ==> key(xs[i]) == k;
  }

  lemma FindNone<T>(xs: seq<T>, key: T -> Bytes, k: Bytes)
    ensures FindBy(xs, key, k).None? <==> forall j :: 0 <= j < |xs| ==> key(xs[j]) != k
  {
  }

  lemma FindAt<T>(xs: seq<T>, key: T -> Bytes, i: nat)
    requires OneEach(xs, key) && i < |xs|
    ensures FindBy(xs, key, key(xs[i])) == Some(xs[i])
  {
    var h := IndexBy(xs, key, key(xs[i]));
    assert h <= i && key(xs[h]) == key(xs[i]);
  }

  lemma FindAppend<T>(xs: seq<T>, key: T -> Bytes, x: T, k: Bytes)
    ensures FindBy(xs + [x], key, k) ==
      if FindBy(xs, key, k).Some? then FindBy(xs, key, k) else if key(x) == k then Some(x) else None
  {
    var i, ys := IndexBy(xs, key, k), xs + [x];
    assert forall j :: 0 <= j < |xs| ==> ys[j] == xs[j];
    if i < |xs| || key(x) == k { IndexUnique(ys, key, k, i); } else { IndexUnique(ys, key, k, |ys|); }
  }

  lemma AbsorbFind<T(!new)>(xs: seq<T>, key: T -> Bytes, join: (T, T) -> T, x: T, k: Bytes)
    requires KeepsKey(key, join)
    ensures FindBy(Absorb(xs, key, join, x), key, k) ==
      if k == key(x) then JoinFound(join, FindBy(xs, key, k), Some(x)) else FindBy(xs, key, k)
  {
    var i := IndexBy(xs, key, key(x));
    if i < |xs| {
      var ys := xs[i := join(xs[i], x)];
      assert forall j :: 0 <= j < |xs| ==> key(ys[j]) == key(xs[j]);
      IndexUnique(ys, key, k, IndexBy(xs, key, k));
    } else {
      FindAppend(xs, key, x, k);
    }
  }

  /** Absorbing neither makes nor mends a repeated key. */
  lemma AbsorbOneIff<T(!new)>(xs: seq<T>, key: T -> Bytes, join: (T, T) -> T, x: T)
    requires KeepsKey(key, join)
    ensures OneEach(Absorb(xs, key, join, x), key) <==> OneEach(xs, key)
  {
    var i := IndexBy(xs, key, key(x));
    var ys := Absorb(xs, key, join, x);
    assert forall j :: 0 <= j < |xs| ==> key(ys[j]) == key(xs[j]);
    if i == |xs| { assert ys[|xs|] == x; }
  }

  lemma {:induction false} AbsorbAllOneIff<T(!new)>(xs: seq<T>, key: T -> Bytes, join: (T, T) -> T, ys: seq<T>)
    requires KeepsKey(key, join)
    ensures OneEach(AbsorbAll(xs, key, join, ys), key) <==> OneEach(xs, key)
    decreases |ys|
  {
    if ys != [] {
      AbsorbAllOneIff(xs, key, join, ys[..|ys| - 1]);
      AbsorbOneIff(AbsorbAll(xs, key, join, ys[..|ys| - 1]), key, join, ys[|ys| - 1]);
    }
  }

  /** The element found after absorbing depends on the one found before and on what is absorbed. */
  lemma {:induction false} AbsorbAllLocal<T(!new)>(xs: seq<T>, zs: seq<T>, key: T -> Bytes, join: (T, T) -> T,
                                                   ys: seq<T>, k: Bytes)
    requires KeepsKey(key, join) && FindBy(xs, key, k) == FindBy(zs, key, k)
    ensures FindBy(AbsorbAll(xs, key, join, ys), key, k) == FindBy(AbsorbAll(zs, key, join, ys), key, k)
    ensures FindBy(ys, key, k).None? ==> FindBy(AbsorbAll(xs, key, join, ys), key, k) == FindBy(xs, key, k)
    ensures FindBy(AbsorbAll(xs, key, join, ys), key, k).Some? <==> FindBy(xs, key, k).Some? || FindBy(ys, key, k).Some?
    decreases |ys|
  {
    if ys != [] {
      var before, y := ys[..|ys| - 1], ys[|ys| - 1];
      AbsorbAllLocal(xs, zs, key, join, before, k);
      AbsorbFind(AbsorbAll(xs, key, join, before), key, join, y, k);
      AbsorbFind(AbsorbAll(zs, key, join, before), key, join, y, k);
      FindAppend(before, key, y, k);
      assert before + [y] == ys;
    }
  }

  lemma {:induction false} AbsorbNext<T>(xs: seq<T>, key: T -> Bytes, join: (T, T) -> T, ys: seq<T>, i: nat)
    requires i < |ys|
    ensures AbsorbAll(xs, key, join, ys[..i + 1]) == Absorb(AbsorbAll(xs, key, join, ys[..i]), key, join, ys[i])
  {
    assert ys[..i + 1][..i] == ys[..i];
  }

  lemma {:induction false} AbsorbConcat<T>(xs: seq<T>, key: T -> Bytes, join: (T, T) -> T, ys: seq<T>, zs: seq<T>)
    ensures AbsorbAll(xs, key, join, ys + zs) == AbsorbAll(AbsorbAll(xs, key, join, ys), key, join, zs)
    decreases |zs|
  {
    if zs == [] {
      assert ys + zs == ys;
    } else {
      AbsorbConcat(xs, key, join, ys, zs[..|zs| - 1]);
      assert (ys + zs)[..|ys + zs| - 1] == ys + zs[..|zs| - 1];
    }
  }

  // ---- lists that hold the same elements ------------------------------------------------------

  lemma {:induction false} ClassIsFound<T>(xs: seq<T>, key: T -> Bytes, k: Bytes)
    requires OneEach(xs, key)
    ensures KeyClass(xs, key, k) == if FindBy(xs, key, k).Some? then [FindBy(xs, key, k).value] else []
  {
    if xs != [] {
      var rest := xs[1..];
      ClassIsFound(rest, key, k);
      assert forall j :: 0 <= j < |rest| ==> rest[j] == xs[j + 1];
      if key(xs[0]) == k {
        FindNone(rest, key, k);
      } else {
        var i := IndexBy(rest, key, k);
        IndexUnique(xs, key, k, i + 1);
      }
    }
  }

  /** Two lists with one element for each key that find the same elements sort alike. */
  lemma {:induction false} SameFoundSortAlike<T>(xs: seq<T>, ys: seq<T>, key: T -> Bytes)
    requires OneEach(xs, key) && OneEach(ys, key)
    requires forall k :: FindBy(xs, key, k) == FindBy(ys, key, k)
    ensures SameClasses(xs, ys, key) && Sort(xs, key) == Sort(ys, key)
  {
    forall k ensures KeyClass(xs, key, k) == KeyClass(ys, key, k) {
      ClassIsFound(xs, key, k);
      ClassIsFound(ys, key, k);
    }
    SortEqualIff(xs, ys, key);
  }
}
