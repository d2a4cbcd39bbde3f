/** Which byte strings are UTF-8: those that encode some sequence of scalar values. */
module Utf8 {
  import opened Octets

  /** A Unicode scalar value: a code point that is not a surrogate. */
  predicate Scalar(c: nat) { c <= 0x10FFFF && !(0xD800 <= c <= 0xDFFF) }

  predicate Scalars(cs: seq<nat>) { forall i :: 0 <= i < |cs| ==> Scalar(cs[i]) }

  /** Section 3 of RFC 3629: the fewest bytes that hold the value, six bits in each but the first. */
  function ScalarBytes(c: nat): (s: Bytes)
    requires Scalar(c)
    ensures 1 <= |s| <= 4
  {
    if c < 0x80 then [c]
    else if c < 0x800 then [0xC0 + c / 64, 0x80 + c % 64]
    else if c < 0x1_0000 then [0xE0 + c / 4096, 0x80 + c / 64 % 64, 0x80 + c % 64]
    else [0xF0 + c / 262_144, 0x80 + c / 4096 % 64, 0x80 + c / 64 % 64, 0x80 + c % 64]
  }

  function TextBytes(cs: seq<nat>): Bytes
    requires Scalars(cs)
  {
    if cs == [] then [] else ScalarBytes(cs[0]) + TextBytes(cs[1..])
  }

  /** The bytes are those of a text. */
  ghost predicate IsText(s: Bytes) { exists cs :: Scalars(cs) && s == TextBytes(cs) }

  lemma LengthTwo(c: nat, s: Bytes)
    requires 0x80 <= c < 0x800 && |s| >= 2 && s[0] == 0xC0 + c / 64 && s[1] == 0x80 + c % 64
    ensures ScalarLength(s) == 2
  {
    assert 2 <= c / 64 <= 0x1F && c % 64 <= 0x3F;
  }

  lemma LengthThree(c: nat, s: Bytes)
    requires 0x800 <= c < 0x1_0000 && Scalar(c) && |s| >= 3
    requires s[0] == 0xE0 + c / 4096 && s[1] == 0x80 + c / 64 % 64 && s[2] == 0x80 + c % 64
    ensures ScalarLength(s) == 3
  {
    var d := c / 64;
    assert c / 4096 == d / 64 && d / 64 <= 15 && d % 64 <= 0x3F && c % 64 <= 0x3F;
    assert 32 <= d && (d < 0x360 || d >= 0x380);
  }

  lemma LengthFour(c: nat, s: Bytes)
    requires 0x1_0000 <= c <= 0x10FFFF && |s| >= 4
    requires s[0] == 0xF0 + c / 262_144 && s[1] == 0x80 + c / 4096 % 64
    requires s[2] == 0x80 + c / 64 % 64 && s[3] == 0x80 + c % 64
    ensures ScalarLength(s) == 4
  {
    var d := c / 4096;
    assert c / 262_144 == d / 64 && 16 <= d <= 0x10F && d % 64 <= 0x3F;
    assert c / 64 % 64 <= 0x3F && c % 64 <= 0x3F;
  }

  lemma LengthFound(c: nat, tail: Bytes)
    requires Scalar(c)
    ensures ScalarLength(ScalarBytes(c) + tail) == |ScalarBytes(c)|
  {
    if 0x80 <= c < 0x800 {
      LengthTwo(c, ScalarBytes(c) + tail);
    } else if 0x800 <= c < 0x1_0000 {
      LengthThree(c, ScalarBytes(c) + tail);
    } else if c >= 0x1_0000 {
      LengthFour(c, ScalarBytes(c) + tail);
    }
  }

  function Above(b: byte, mark: nat): int { b - mark }

  /** The scalar value at the front. */
  function Front(s: Bytes): (c: nat)
    requires s != [] && ScalarLength(s) > 0
  {
    match ScalarLength(s)
    case 1 => s[0]
    case 2 => 64 * Above(s[0], 0xC0) + Above(s[1], 0x80)
    case 3 => 4096 * Above(s[0], 0xE0) + 64 * Above(s[1], 0x80) + Above(s[2], 0x80)
    case _ =>
      262_144 * Above(s[0], 0xF0) + 4096 * Above(s[1], 0x80) + 64 * Above(s[2], 0x80) + Above(s[3], 0x80)
  }

  lemma FrontBytes(s: Bytes)
    requires s != [] && ScalarLength(s) > 0
    ensures Scalar(Front(s)) && ScalarBytes(Front(s)) == s[..ScalarLength(s)]
  {
    match ScalarLength(s)
    case 1 =>
    case 2 => Digits2(Above(s[0], 0xC0), Above(s[1], 0x80));
    case 3 => Digits3(Above(s[0], 0xE0), Above(s[1], 0x80), Above(s[2], 0x80));
    case _ => FrontFour(s);
  }

  lemma FrontFour(s: Bytes)
    requires s != [] && ScalarLength(s) == 4
    ensures Scalar(Front(s)) && ScalarBytes(Front(s)) == s[..4]
  {
    Digits4(Above(s[0], 0xF0), Above(s[1], 0x80), Above(s[2], 0x80), Above(s[3], 0x80));
  }

  lemma Digits2(a: nat, b: nat)
    requires b < 64
    ensures (64 * a + b) / 64 == a && (64 * a + b) % 64 == b
  {
  }

  lemma Digits3(a: nat, b: nat, c: nat)
    requires b < 64 && c < 64
    ensures var n := 4096 * a + 64 * b + c;
      n / 4096 == a && n / 64 % 64 == b && n % 64 == c
  {
    Digits2(64 * a + b, c);
    Digits2(a, b);
  }

  lemma Digits4(a: nat, b: nat, c: nat, d: nat)
    requires b < 64 && c < 64 && d < 64
    ensures var n := 262_144 * a + 4096 * b + 64 * c + d;
      n / 262_144 == a && n / 4096 % 64 == b && n / 64 % 64 == c && n % 64 == d
  {
    Digits3(64 * a + b, c, d);
    Digits2(a, b);
  }

  /** The program's check accepts exactly the encodings of sequences of scalar values. */
  lemma {:induction false} ValidIff(s: Bytes)
    ensures ValidUtf8(s) <==> IsText(s)
    decreases |s|
  {
    if ValidUtf8(s) { ValidIsText(s); }
    if cs :| Scalars(cs) && s == TextBytes(cs) { TextIsValid(cs); }
  }

  lemma {:induction false} TextIsValid(cs: seq<nat>)
    requires Scalars(cs)
    ensures ValidUtf8(TextBytes(cs))
  {
    if cs != [] {
      var first, rest := ScalarBytes(cs[0]), TextBytes(cs[1..]);
      TextIsValid(cs[1..]);
      LengthFound(cs[0], rest);
      assert (first + rest)[|first|..] == rest;
    }
  }

  lemma {:induction false} ValidIsText(s: Bytes)
    requires ValidUtf8(s)
    ensures IsText(s)
    decreases |s|
  {
    if s == [] {
      assert TextBytes([]) == s;
    } else {
      ValidIsText(s[ScalarLength(s)..]);
      FrontText(s, ScalarLength(s));
    }
  }

  lemma FrontText(s: Bytes, n: nat)
    requires s != [] && n == ScalarLength(s) > 0 && IsText(s[n..])
    ensures IsText(s)
  {
    var c := FrontOf(s, n);
    TextGrows(c, s[n..]);
    assert s[..n] + s[n..] == s;
  }

  lemma FrontOf(s: Bytes, n: nat) returns (c: nat)
    requires s != [] && n == ScalarLength(s) > 0
    ensures Scalar(c) && ScalarBytes(c) == s[..n]
  {
    c := Front(s);
    FrontBytes(s);
  }

  lemma {:induction false} TextGrows(c: nat, rest: Bytes)
    requires Scalar(c) && IsText(rest)
    ensures IsText(ScalarBytes(c) + rest)
  {
    var cs :| Scalars(cs) && rest == TextBytes(cs);
    var all := [c] + cs;
    assert all[1..] == cs && all[0] == c;
    assert Scalars(all) && TextBytes(all) == ScalarBytes(c) + TextBytes(cs);
  }
}
