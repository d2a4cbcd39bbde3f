/** Byte strings, the option and parse-result types, fixed-width integers in both byte
    orders, UTF-8 validity and the bytewise order. */
module Octets {
  type byte = x: int | 0 <= x < 256
  type Bytes = seq<byte>

  datatype Option<+T> = None | Some(value: T)

  /** What a parser leaves: a value and the unread suffix, or a malformed input. */
  datatype Parsed<+T> = Malformed | Parsed(value: T, rest: Bytes) {
    predicate IsFailure() { Malformed? }
    function PropagateFailure<U>(): Parsed<U>
      requires Malformed?
    { Malformed }
    function Extract(): (T, Bytes)
      requires Parsed?
    { (value, rest) }
  }

  const U32 := 0x1_0000_0000
  const U64 := 0x1_0000_0000_0000_0000
  const I63 := 0x8000_0000_0000_0000

  lemma Associative(a: Bytes, b: Bytes, c: Bytes)
    ensures a + (b + c) == a + b + c
  {
  }

  // ---- fixed-width integers -------------------------------------------------

  function Pow256(k: nat): (p: nat)
    ensures p >= 1
  {
    if k == 0 then 1 else 256 * Pow256(k - 1)
  }

  /** The low `k` bytes of `n`, most significant first (a `to_be_bytes` of a truncating cast). */
  function BigEndian(k: nat, n: nat): (s: Bytes)
    ensures |s| == k
  {
    if k == 0 then [] else BigEndian(k - 1, n / 256) + [n % 256]
  }

  function FromBigEndian(s: Bytes): nat {
    if s == [] then 0 else 256 * FromBigEndian(s[..|s| - 1]) + s[|s| - 1]
  }

  /** The low `k` bytes of `n`, least significant first. */
  function LittleEndian(k: nat, n: nat): (s: Bytes)
    ensures |s| == k
  {
    if k == 0 then [] else [n % 256] + LittleEndian(k - 1, n / 256)
  }

  function FromLittleEndian(s: Bytes): nat {
    if s == [] then 0 else s[0] + 256 * FromLittleEndian(s[1..])
  }

  lemma {:induction false} BigEndianRoundTrip(k: nat, n: nat)
    requires n < Pow256(k)
    ensures FromBigEndian(BigEndian(k, n)) == n
  {
    if k > 0 {
      BigEndianRoundTrip(k - 1, n / 256);
      assert BigEndian(k, n)[..k - 1] == BigEndian(k - 1, n / 256);
    }
  }

  /** Byte `i` of the big-endian form is the digit of weight 256^(k-1-i). */
  lemma {:induction false} BigEndianDigits(k: nat, n: nat, i: nat)
    requires i < k
    ensures BigEndian(k, n)[i] == n / Pow256(k - 1 - i) % 256
  {
    if i < k - 1 {
      BigEndianDigits(k - 1, n / 256, i);
      DivDiv(n, Pow256(k - 2 - i));
    }
  }

  /** Byte `i` of the little-endian form is the digit of weight 256^i. */
  lemma {:induction false} LittleEndianDigits(k: nat, n: nat, i: nat)
    requires i < k
    ensures LittleEndian(k, n)[i] == n / Pow256(i) % 256
  {
    if i > 0 {
      LittleEndianDigits(k - 1, n / 256, i - 1);
      DivDiv(n, Pow256(i - 1));
    }
  }

  lemma DivDiv(n: nat, p: nat)
    requires p >= 1
    ensures n / 256 / p == n / (256 * p)
  {
    var q, r := n / 256 / p, n / 256 % p;
    assert n / 256 == q * p + r;
    var m := 256 * r + n % 256;
    assert n == q * (256 * p) + m by { assert 256 * (q * p) == q * (256 * p); }
    assert 0 <= m < 256 * p;
    QuotientIs(n, 256 * p, q, m);
  }

  lemma QuotientIs(n: nat, d: nat, q: nat, m: nat)
    requires d > 0 && n == q * d + m && m < d
    ensures n / d == q
  {
    assert n == (n / d) * d + n % d;
    assert (n / d - q) * d == m - n % d;
    MultipleApart(n / d - q, d);
  }

  lemma MultipleApart(e: int, d: nat)
    requires d > 0
    ensures e == 0 || e * d >= d || e * d + d <= 0
  {
  }

  /** Bytes are what their number is written as. */
  lemma {:induction false} BigEndianInverse(s: Bytes)
    ensures FromBigEndian(s) < Pow256(|s|) && BigEndian(|s|, FromBigEndian(s)) == s
  {
    if s != [] {
      var m, b := s[..|s| - 1], s[|s| - 1];
      BigEndianInverse(m);
      assert (256 * FromBigEndian(m) + b) / 256 == FromBigEndian(m) && (256 * FromBigEndian(m) + b) % 256 == b;
      assert s == m + [b];
    }
  }

  lemma {:induction false} LittleEndianRoundTrip(k: nat, n: nat)
    requires n < Pow256(k)
    ensures FromLittleEndian(LittleEndian(k, n)) == n
  {
    if k > 0 {
      LittleEndianRoundTrip(k - 1, n / 256);
      assert LittleEndian(k, n)[1..] == LittleEndian(k - 1, n / 256);
    }
  }

  lemma {:induction false} LittleEndianInverse(s: Bytes)
    ensures FromLittleEndian(s) < Pow256(|s|) && LittleEndian(|s|, FromLittleEndian(s)) == s
  {
    if s != [] {
      LittleEndianInverse(s[1..]);
      var n := FromLittleEndian(s[1..]);
      assert (s[0] + 256 * n) % 256 == s[0] && (s[0] + 256 * n) / 256 == n;
      assert s == [s[0]] + s[1..];
    }
  }

  lemma Pow256Values()
    ensures Pow256(4) == U32 && Pow256(8) == U64
  {
    assert Pow256(2) == 65536;
    assert Pow256(4) == 256 * (256 * Pow256(2));
    assert Pow256(6) == 256 * (256 * Pow256(4));
    assert Pow256(8) == 256 * (256 * Pow256(6));
  }

  // ---- UTF-8 ----------------------------------------------------------------

  predicate Between(lo: int, b: byte, hi: int) { lo <= b <= hi }

  predicate Continuation(b: byte) { Between(0x80, b, 0xBF) }

  /** How many bytes the well-formed UTF-8 scalar at the front of `s` takes; 0 if there is none. */
  function ScalarLength(s: Bytes): (n: nat)
    requires s != []
    ensures n <= 4 && n <= |s|
  {
    var b := s[0];
    if b < 0x80 then 1
    else if Between(0xC2, b, 0xDF) then
      if |s| >= 2 && Continuation(s[1]) then 2 else 0
    else if Between(0xE0, b, 0xEF) then
      if && |s| >= 3
         && Between(if b == 0xE0 then 0xA0 else 0x80, s[1], if b == 0xED then 0x9F else 0xBF)
         && Continuation(s[2])
      then 3 else 0
    else if Between(0xF0, b, 0xF4) then
      if && |s| >= 4
         && Between(if b == 0xF0 then 0x90 else 0x80, s[1], if b == 0xF4 then 0x8F else 0xBF)
         && Continuation(s[2]) && Continuation(s[3])
      then 4 else 0
    else 0
  }

  predicate ValidUtf8(s: Bytes) {
    s == [] || (var n := ScalarLength(s); n > 0 && ValidUtf8(s[n..]))
  }

  // ---- bytewise order -------------------------------------------------------

  predicate LexLe(a: Bytes, b: Bytes) {
    a == [] || (b != [] && (a[0] < b[0] || (a[0] == b[0] && LexLe(a[1..], b[1..]))))
  }

  predicate LexLt(a: Bytes, b: Bytes) { LexLe(a, b) && a != b }

  /** `i` is the first place where the two differ, and `a` has the smaller byte there. */
  predicate SmallerAt(a: Bytes, b: Bytes, i: nat) { i < |a| && i < |b| && a[..i] == b[..i] && a[i] < b[i] }

  /** The order of dictionaries on unsigned bytes: a prefix first, else by the first difference. */
  lemma {:induction false} LexLeIff(a: Bytes, b: Bytes)
    ensures LexLe(a, b) <==> a <= b || exists i :: SmallerAt(a, b, i)
  {
    if a != [] && b != [] {
      if a[0] < b[0] { assert SmallerAt(a, b, 0); }
      if a[0] == b[0] {
        LexLeIff(a[1..], b[1..]);
        if i: nat :| SmallerAt(a[1..], b[1..], i) {
          assert a[..i + 1] == [a[0]] + a[1..][..i] && b[..i + 1] == [b[0]] + b[1..][..i];
          assert SmallerAt(a, b, i + 1);
        }
        if i: nat :| SmallerAt(a, b, i) {
          assert a[1..][..i - 1] == a[..i][1..] && b[1..][..i - 1] == b[..i][1..];
          assert SmallerAt(a[1..], b[1..], i - 1);
        }
        PrefixTail(a, b);
      } else if i: nat :| SmallerAt(a, b, i) {
        assert i > 0 ==> a[..i][0] == b[..i][0];
      }
    }
  }

  lemma PrefixTail(a: Bytes, b: Bytes)
    requires a != [] && b != [] && a[0] == b[0]
    ensures a <= b <==> a[1..] <= b[1..]
  {
    if a[1..] <= b[1..] { assert a == [a[0]] + a[1..] && b[..|a|] == [b[0]] + b[1..][..|a| - 1]; }
    if a <= b { assert b[1..][..|a| - 1] == b[..|a|][1..]; }
  }

  lemma {:induction false} LexReflexive(a: Bytes)
    ensures LexLe(a, a)
  {
    if a != [] { LexReflexive(a[1..]); }
  }

  lemma {:induction false} LexTotal(a: Bytes, b: Bytes)
    ensures LexLe(a, b) || LexLe(b, a)
  {
    if a != [] && b != [] { LexTotal(a[1..], b[1..]); }
  }

  lemma {:induction false} LexAntisymmetric(a: Bytes, b: Bytes)
    requires LexLe(a, b) && LexLe(b, a)
    ensures a == b
  {
    if a != [] {
      LexAntisymmetric(a[1..], b[1..]);
      assert a == [a[0]] + a[1..] && b == [b[0]] + b[1..];
    }
  }

  lemma {:induction false} LexTransitive(a: Bytes, b: Bytes, c: Bytes)
    requires LexLe(a, b) && LexLe(b, c)
    ensures LexLe(a, c)
  {
    if a != [] && a[0] == b[0] == c[0] { LexTransitive(a[1..], b[1..], c[1..]); }
  }
}
