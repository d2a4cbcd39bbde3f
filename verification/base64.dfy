/** Padded base64 of section 4 of RFC 4648 and the two decoders: by groups of four symbols, and
    by a bit accumulator. Shifts and ors of disjoint bits are written as arithmetic. */
module Base64 {
  import opened Octets

  const PAD: byte := 61

  // ---- the alphabet -------------------------------------------------------------------------

  /** The table: A-Z, a-z, 0-9, + and /. */
  function Symbol(v: int): byte
    requires 0 <= v < 64
  {
    if v < 26 then 65 + v else if v < 52 then 71 + v else if v < 62 then v - 4 else if v == 62 then 43 else 47
  }

  /** A symbol's value, by ranges. */
  function Value(b: byte): Option<nat> {
    if 65 <= b <= 90 then Some(b - 65)
    else if 97 <= b <= 122 then Some(b - 97 + 26)
    else if 48 <= b <= 57 then Some(b - 48 + 52)
    else if b == 43 then Some(62)
    else if b == 47 then Some(63)
    else None
  }

  lemma ValueInverts(b: byte, v: int)
    requires 0 <= v < 64
    ensures Value(b) == Some(v) <==> b == Symbol(v)
    ensures Value(b).Some? ==> 0 <= Value(b).value < 64
  {
  }

  /** The position of `b` in the table. */
  method Position(b: byte) returns (r: Option<nat>)
    ensures r == Value(b)
  {
    for v := 0 to 64
      invariant forall w :: 0 <= w < v ==> Symbol(w) != b
    {
      if Symbol(v) == b { return Some(v); }
    }
    assert Value(b).Some? ==> Symbol(Value(b).value) == b;
    return None;
  }

  predicate White(b: byte) { b == 32 || b == 9 || b == 10 || b == 12 || b == 13 }

  function Strip(s: Bytes): Bytes {
    if s == [] then [] else (if White(s[0]) then [] else [s[0]]) + Strip(s[1..])
  }

  // ---- encoding ------------------------------------------------------------------------------

  /** The 24-bit number of a group of at most three bytes, missing bytes zero. */
  function Packed(c: Bytes): nat
    requires 1 <= |c| <= 3
  {
    var c1: nat, c2: nat := if |c| > 1 then c[1] else 0, if |c| > 2 then c[2] else 0;
    65_536 * c[0] + 256 * c1 + c2
  }

  /** The sextet `i` of a 24-bit number, the highest first. */
  function Sextet(n: nat, i: nat): (v: nat)
    requires i < 4
    ensures v < 64
  {
    (if i == 0 then n / 262_144 else if i == 1 then n / 4_096 else if i == 2 then n / 64 else n) % 64
  }

  function EncodeGroup(c: Bytes): (g: Bytes)
    requires 1 <= |c| <= 3
    ensures |g| == 4
  {
    var n := Packed(c);
    seq(4, i requires 0 <= i < 4 => if i <= |c| then Symbol(Sextet(n, i)) else PAD)
  }

  function Encode(data: Bytes): Bytes {
    if data == [] then []
    else if |data| <= 3 then EncodeGroup(data)
    else EncodeGroup(data[..3]) + Encode(data[3..])
  }

  method EncodeChunk(c: Bytes) returns (g: Bytes)
    requires 1 <= |c| <= 3
    ensures g == EncodeGroup(c)
  {
    var n := Packed(c);
    g := [];
    for i := 0 to 4
      invariant g == EncodeGroup(c)[..i]
    {
      if i <= |c| { g := g + [Symbol(Sextet(n, i))]; } else { g := g + [PAD]; }
    }
  }

  method EncodeBytes(data: Bytes) returns (out: Bytes)
    ensures out == Encode(data)
  {
    out := [];
    var at := 0;
    while at < |data|
      invariant 0 <= at <= |data|
      invariant out + Encode(data[at..]) == Encode(data)
    {
      var end := if at + 3 <= |data| then at + 3 else |data|;
      var c := data[at..end];
      var g := EncodeChunk(c);
      EncodeSplits(data[at..]);
      assert c == data[at..][..|c|] && data[at..][|c|..] == data[end..];
      Associative(out, g, Encode(data[end..]));
      out := out + g;
      at := end;
    }
  }

  lemma {:induction false} EncodeSplits(data: Bytes)
    requires data != []
    ensures var k := if |data| <= 3 then |data| else 3;
      Encode(data) == EncodeGroup(data[..k]) + Encode(data[k..])
  {
    if |data| <= 3 {
      assert data[..|data|] == data;
      assert EncodeGroup(data) + [] == EncodeGroup(data);
    }
  }

  // ---- decoding by groups --------------------------------------------------------------------------

  /** Padding symbols at the end. */
  function PadCount(c: Bytes): nat {
    if c != [] && c[|c| - 1] == PAD then 1 + PadCount(c[..|c| - 1]) else 0
  }

  /** The first `k` symbols of a group of four as a 24-bit number, the others counted as zero. */
  function GroupNumber(c: Bytes, k: nat): Option<nat>
    requires |c| == 4 && k <= 4
  {
    if k == 0 then Some(0)
    else match (GroupNumber(c, k - 1), Value(c[k - 1]))
      case (Some(n), Some(v)) =>
        Some(n + v * (if k == 1 then 262_144 else if k == 2 then 4_096 else if k == 3 then 64 else 1))
      case _ => None
  }

  function Three(n: nat): Bytes { [n / 65_536 % 256, n / 256 % 256, n % 256] }

  function DecodeGroup(c: Bytes, last: bool): Option<Bytes>
    requires |c| == 4
  {
    var pad := PadCount(c);
    if pad > 2 || (pad > 0 && !last) then None
    else match GroupNumber(c, 4 - pad)
      case None => None
      case Some(n) => Some(Three(n)[..3 - pad])
  }

  /** `d` before what the rest decodes to. */
  function Before(d: Bytes, rest: Option<Bytes>): Option<Bytes> {
    if rest.None? then None else Some(d + rest.value)
  }

  lemma BeforeBefore(c: Bytes, d: Bytes, rest: Option<Bytes>)
    ensures Before(c, Before(d, rest)) == Before(c + d, rest) && Before([], rest) == rest
  {
    if rest.Some? {
      assert c + (d + rest.value) == c + d + rest.value;
      assert [] + rest.value == rest.value;
    }
  }

  function DecodeGroups(s: Bytes): Option<Bytes>
    requires |s| % 4 == 0
  {
    if s == [] then Some([])
    else match DecodeGroup(s[..4], |s| == 4)
      case None => None
      case Some(g) => Before(g, DecodeGroups(s[4..]))
  }

  function Decode(s: Bytes): Option<Bytes> {
    var t := Strip(s);
    if |t| % 4 != 0 then None else DecodeGroups(t)
  }

  lemma {:induction false} PadCountBounds(c: Bytes)
    ensures PadCount(c) <= |c| && forall j :: |c| - PadCount(c) <= j < |c| ==> c[j] == PAD
    ensures PadCount(c) < |c| ==> c[|c| - 1 - PadCount(c)] != PAD
    decreases |c|
  {
    if c != [] && c[|c| - 1] == PAD { PadCountBounds(c[..|c| - 1]); }
  }

  /** The number held while the symbols of a group are shifted in: symbols so far, then zeros
      for the padding passed. */
  function Shifted(c: Bytes, pad: nat, j: nat): Option<nat>
    requires |c| == 4 && pad <= 2 && j <= 4
  {
    if j == 0 then Some(0)
    else match Shifted(c, pad, j - 1)
      case None => None
      case Some(n) =>
        if j - 1 < 4 - pad then
          (match Value(c[j - 1])
           case None => None
           case Some(v) => Some(64 * n + v))
        else Some(64 * n)
  }

  lemma {:induction false} ShiftedIsNumber(c: Bytes, pad: nat)
    requires |c| == 4 && pad <= 2
    ensures Shifted(c, pad, 4) == GroupNumber(c, 4 - pad)
  {
    GroupNumbers(c);
    assert Shifted(c, pad, 1) == Value(c[0]);
    if Value(c[0]).Some? && Value(c[1]).Some? {
      assert Shifted(c, pad, 2) == Some(64 * Value(c[0]).value + Value(c[1]).value);
    } else {
      assert Shifted(c, pad, 2) == None;
      assert Shifted(c, pad, 3) == None;
    }
  }

  lemma {:induction false} ShiftedFails(c: Bytes, pad: nat, j: nat)
    requires |c| == 4 && pad <= 2 && j <= 4 && Shifted(c, pad, j) == None
    ensures Shifted(c, pad, 4) == None
    decreases 4 - j
  {
    if j < 4 { ShiftedFails(c, pad, j + 1); }
  }

  /** Read one group. */
  method ReadGroup(c: Bytes, last: bool) returns (r: Option<Bytes>)
    requires |c| == 4
    ensures r == DecodeGroup(c, last)
  {
    var pad := PadCount(c);
    PadCountBounds(c);
    if pad > 2 || (pad > 0 && !last) { return None; }
    ShiftedIsNumber(c, pad);
    var n := 0;
    for j := 0 to 4
      invariant Shifted(c, pad, j) == Some(n)
    {
      n := 64 * n;
      if j < 4 - pad {
        var v := Position(c[j]);
        if v.None? {
          ShiftedFails(c, pad, j + 1);
          return None;
        }
        n := n + v.value;
      } else if c[j] != PAD {
        return None;
      }
    }
    return Some([n / 65_536 % 256, n / 256 % 256, n % 256][..3 - pad]);
  }

  method StripWhite(s: Bytes) returns (t: Bytes)
    ensures t == Strip(s)
  {
    t := [];
    for i := 0 to |s|
      invariant t + Strip(s[i..]) == Strip(s)
    {
      assert s[i..][1..] == s[i + 1..];
      ghost var rest := Strip(s[i + 1..]);
      assert t + ([s[i]] + rest) == t + [s[i]] + rest && t + ([] + rest) == t + rest;
      if !White(s[i]) { t := t + [s[i]]; }
    }
    assert s[|s|..] == [];
  }

  lemma {:induction false} DecodeGroupsStep(s: Bytes)
    requires |s| % 4 == 0 && s != []
    ensures DecodeGroup(s[..4], |s| == 4) == None ==> DecodeGroups(s) == None
    ensures DecodeGroup(s[..4], |s| == 4).Some? ==>
      DecodeGroups(s) == Before(DecodeGroup(s[..4], |s| == 4).value, DecodeGroups(s[4..]))
  {
  }

  lemma GroupAt(t: Bytes, i: nat)
    requires |t| % 4 == 0 && 4 * i < |t|
    ensures t[4 * i..][..4] == t[4 * i..4 * i + 4] && t[4 * i..][4..] == t[4 * (i + 1)..]
    ensures i + 1 == |t| / 4 <==> |t[4 * i..]| == 4
  {
  }

  method DecodeBytes(s: Bytes) returns (r: Option<Bytes>)
    ensures r == Decode(s)
  {
    var t := StripWhite(s);
    if |t| % 4 != 0 { return None; }
    r := DecodeStripped(t);
  }

  method DecodeStripped(t: Bytes) returns (r: Option<Bytes>)
    requires |t| % 4 == 0
    ensures r == DecodeGroups(t)
  {
    var out: Bytes := [];
    var i := 0;
    assert t[0..] == t;
    BeforeBefore([], [], DecodeGroups(t));
    while 4 * i < |t|
      invariant 0 <= 4 * i <= |t|
      invariant DecodeGroups(t) == Before(out, DecodeGroups(t[4 * i..]))
    {
      ghost var here := t[4 * i..];
      DecodeGroupsStep(here);
      GroupAt(t, i);
      var g := ReadGroup(t[4 * i..4 * i + 4], i + 1 == |t| / 4);
      if g.None? { return None; }
      BeforeBefore(out, g.value, DecodeGroups(here[4..]));
      out := out + g.value;
      i := i + 1;
    }
    assert t[4 * i..] == [] && out + [] == out;
    return Some(out);
  }

  // ---- decoding by a bit accumulator ------------------------------------------------------------------

  function Pow2(bits: nat): (p: nat)
    ensures p >= 1
  {
    if bits == 0 then 1 else 2 * Pow2(bits - 1)
  }

  /** What the accumulator still emits for the symbols `s`. */
  function BitRun(s: Bytes, acc: nat, bits: nat): Option<Bytes> {
    if s == [] then Some([])
    else match Value(s[0])
      case None => None
      case Some(v) =>
        var acc1, bits1 := 64 * acc + v, bits + 6;
        if bits1 < 8 then BitRun(s[1..], acc1, bits1)
        else
          Before([acc1 / Pow2(bits1 - 8) % 256], BitRun(s[1..], acc1 % Pow2(bits1 - 8), bits1 - 8))
  }

  function TrimPad(s: Bytes): Bytes {
    if s != [] && s[|s| - 1] == PAD then TrimPad(s[..|s| - 1]) else s
  }

  function BitDecode(s: Bytes): Option<Bytes> { BitRun(TrimPad(s), 0, 0) }

  lemma {:induction false} Pow2Add(a: nat, b: nat)
    ensures Pow2(a + b) == Pow2(a) * Pow2(b)
    decreases b
  {
    if b > 0 { Pow2Add(a, b - 1); }
  }

  lemma Pow2Step(bits: nat)
    ensures Pow2(bits + 6) == 64 * Pow2(bits)
    ensures bits >= 8 ==> Pow2(bits) == 256 * Pow2(bits - 8)
  {
    Pow2Add(bits, 6);
    if bits >= 8 { Pow2Add(bits - 8, 8); }
    assert Pow2(6) == 4 * Pow2(4) && Pow2(4) == 4 * Pow2(2) && Pow2(8) == 4 * Pow2(6);
  }

  lemma Below(a: nat, v: nat, p: nat)
    requires a < p && v < 64
    ensures 64 * a + v < 64 * p
  {
  }

  lemma {:induction false} Pow2Small(bits: nat)
    requires bits <= 8
    ensures Pow2(bits) <= 256
  {
    Pow2Add(bits, 8 - bits);
    Pow2Step(8);
    assert Pow2(bits) * Pow2(8 - bits) == 256;
  }

  /** One symbol into the accumulator: what is emitted, and what is held after. */
  method Shift(acc: nat, bits: nat, v: nat) returns (emitted: Bytes, acc1: nat, bits1: nat)
    requires acc < Pow2(bits) && bits < 8 && v < 64
    ensures acc1 < Pow2(bits1) && bits1 < 8
    ensures forall s: Bytes {:induction false} :: s != [] && Value(s[0]) == Some(v) ==>
      BitRun(s, acc, bits) == Before(emitted, BitRun(s[1..], acc1, bits1))
  {
    Pow2Step(bits);
    Below(acc, v, Pow2(bits));
    Pow2Small(bits);
    acc1, bits1, emitted := 64 * acc + v, bits + 6, [];
    assert acc1 < U32;
    if bits1 >= 8 {
      bits1 := bits1 - 8;
      emitted := [acc1 / Pow2(bits1) % 256];
      acc1 := acc1 % Pow2(bits1);
    } else {
      forall s: Bytes {:induction false} | s != [] && Value(s[0]) == Some(v)
        ensures BitRun(s, acc, bits) == Before([], BitRun(s[1..], acc1, bits1))
      {
        BeforeBefore([], [], BitRun(s[1..], acc1, bits1));
      }
    }
  }

  /** The accumulator never holds more than its bits, so 32 bits are enough for it. */
  method BitDecodeBytes(s: Bytes) returns (r: Option<Bytes>)
    ensures r == BitDecode(s)
  {
    var t := TrimPad(s);
    var out: Bytes := [];
    var acc: nat, bits: nat := 0, 0;
    assert t[0..] == t;
    BeforeBefore([], [], BitRun(t, 0, 0));
    for i := 0 to |t|
      invariant acc < Pow2(bits) && bits < 8
      invariant BitRun(t, 0, 0) == Before(out, BitRun(t[i..], acc, bits))
    {
      assert t[i..][1..] == t[i + 1..];
      var v := Value(t[i]);
      if v.None? { return None; }
      var emitted;
      emitted, acc, bits := Shift(acc, bits, v.value);
      BeforeBefore(out, emitted, BitRun(t[i + 1..], acc, bits));
      out := out + emitted;
    }
    assert t[|t|..] == [] && out + [] == out;
    return Some(out);
  }

  // ---- decode inverts encode ------------------------------------------------------------------------------

  lemma SymbolNotPad(v: int)
    requires 0 <= v < 64
    ensures Symbol(v) != PAD && !White(Symbol(v))
  {
  }

  lemma Sextets(n: nat)
    requires n < 16_777_216
    ensures n == 262_144 * Sextet(n, 0) + 4_096 * Sextet(n, 1) + 64 * Sextet(n, 2) + Sextet(n, 3)
  {
  }

  lemma PackedBounds(c: Bytes)
    requires 1 <= |c| <= 3
    ensures Packed(c) < 16_777_216
    ensures Three(Packed(c))[..|c|] == c
    ensures |c| <= 2 ==> Sextet(Packed(c), 3) == 0
    ensures |c| == 1 ==> Sextet(Packed(c), 2) == 0
  {
    var n := Packed(c);
    var c0: nat, c1: nat, c2: nat := c[0], if |c| > 1 then c[1] else 0, if |c| > 2 then c[2] else 0;
    assert n / 256 == 256 * c0 + c1;
    assert n / 65_536 == c0;
    assert Three(n) == [c[0], c1, c2];
  }

  lemma GroupPads(c: Bytes)
    requires 1 <= |c| <= 3
    ensures PadCount(EncodeGroup(c)) == 3 - |c|
  {
    var g := EncodeGroup(c);
    SymbolNotPad(Sextet(Packed(c), |c|));
    if |c| < 3 {
      assert g[3] == PAD;
      assert PadCount(g) == 1 + PadCount(g[..3]);
      assert g[..3][2] == g[2];
      if |c| < 2 { assert PadCount(g[..3]) == 1 + PadCount(g[..2]); }
    }
  }

  lemma {:induction false} GroupNumbers(g: Bytes)
    requires |g| == 4
    ensures GroupNumber(g, 0) == Some(0)
    ensures Value(g[0]).Some? && Value(g[1]).Some? ==>
      && GroupNumber(g, 2) == Some(262_144 * Value(g[0]).value + 4_096 * Value(g[1]).value)
      && (Value(g[2]).Some? ==>
           && GroupNumber(g, 3) == Some(GroupNumber(g, 2).value + 64 * Value(g[2]).value)
           && (Value(g[3]).Some? ==> GroupNumber(g, 4) == Some(GroupNumber(g, 3).value + Value(g[3]).value)))
    ensures GroupNumber(g, 2).Some? ==> Value(g[0]).Some? && Value(g[1]).Some?
    ensures GroupNumber(g, 3).Some? ==> GroupNumber(g, 2).Some? && Value(g[2]).Some?
    ensures GroupNumber(g, 4).Some? ==> GroupNumber(g, 3).Some? && Value(g[3]).Some?
  {
    assert GroupNumber(g, 1) == if Value(g[0]).Some? then Some(262_144 * Value(g[0]).value) else None;
    assert GroupNumber(g, 2).Some? <==> GroupNumber(g, 1).Some? && Value(g[1]).Some?;
  }

  lemma EncodedValues(c: Bytes)
    requires 1 <= |c| <= 3
    ensures forall i :: 0 <= i <= |c| ==> Value(EncodeGroup(c)[i]) == Some(Sextet(Packed(c), i))
  {
    var g, n := EncodeGroup(c), Packed(c);
    forall i | 0 <= i <= |c| ensures Value(g[i]) == Some(Sextet(n, i)) { ValueInverts(g[i], Sextet(n, i)); }
  }

  lemma NumberFromValues(g: Bytes, k: nat, a: nat, b: nat, c: nat, d: nat)
    requires |g| == 4 && 1 <= k <= 3 && Value(g[0]) == Some(a) && Value(g[1]) == Some(b)
    requires k >= 2 ==> Value(g[2]) == Some(c)
    requires k == 3 ==> Value(g[3]) == Some(d)
    requires (k < 2 ==> c == 0) && (k < 3 ==> d == 0)
    ensures GroupNumber(g, k + 1) == Some(262_144 * a + 4_096 * b + 64 * c + d)
  {
    GroupNumbers(g);
  }

  /** The symbols of an encoded group give back its number. */
  lemma {:induction false} EncodedNumber(c: Bytes)
    requires 1 <= |c| <= 3
    ensures GroupNumber(EncodeGroup(c), |c| + 1) == Some(Packed(c))
  {
    var n := Packed(c);
    PackedBounds(c);
    Sextets(n);
    EncodedValues(c);
    NumberFromValues(EncodeGroup(c), |c|, Sextet(n, 0), Sextet(n, 1), Sextet(n, 2), Sextet(n, 3));
  }

  lemma GroupRoundTrip(c: Bytes, last: bool)
    requires 1 <= |c| <= 3 && (|c| == 3 || last)
    ensures DecodeGroup(EncodeGroup(c), last) == Some(c)
  {
    PackedBounds(c);
    GroupPads(c);
    EncodedNumber(c);
  }

  lemma {:induction false} GroupFirst(g: Bytes, rest: Bytes)
    requires |g| == 4 && |rest| % 4 == 0
    ensures |g + rest| % 4 == 0
    ensures DecodeGroup(g, rest == []) == None ==> DecodeGroups(g + rest) == None
    ensures DecodeGroup(g, rest == []).Some? ==>
      DecodeGroups(g + rest) == Before(DecodeGroup(g, rest == []).value, DecodeGroups(rest))
  {
    assert (g + rest)[..4] == g && (g + rest)[4..] == rest;
    DecodeGroupsStep(g + rest);
  }

  lemma {:induction false} GroupsRoundTrip(data: Bytes)
    ensures |Encode(data)| % 4 == 0 && DecodeGroups(Encode(data)) == Some(data)
    ensures |Encode(data)| == 0 <==> data == []
  {
    if data != [] {
      var k := if |data| <= 3 then |data| else 3;
      var g, rest := EncodeGroup(data[..k]), Encode(data[k..]);
      EncodeSplits(data);
      GroupsRoundTrip(data[k..]);
      GroupRoundTrip(data[..k], rest == []);
      GroupFirst(g, rest);
      assert data[..k] + data[k..] == data;
    }
  }

  /** `s` is `t` with tabs, line feeds, form feeds, carriage returns and spaces anywhere in it. */
  predicate Spaced(s: Bytes, t: Bytes) {
    if s == [] then t == []
    else (s[0] in {9, 10, 12, 13, 32} && Spaced(s[1..], t)) || (t != [] && s[0] == t[0] && Spaced(s[1..], t[1..]))
  }

  lemma {:induction false} SpacedIff(s: Bytes, t: Bytes)
    requires forall i :: 0 <= i < |t| ==> t[i] !in {9, 10, 12, 13, 32}
    ensures Spaced(s, t) <==> Strip(s) == t
    decreases |s|
  {
    if s != [] {
      WhiteIff(s[0]);
      StripStep(s);
      if White(s[0]) {
        SpacedIff(s[1..], t);
      } else if t != [] && s[0] == t[0] {
        SpacedIff(s[1..], t[1..]);
        assert t == [t[0]] + t[1..];
      }
    }
  }

  lemma WhiteIff(b: byte)
    ensures White(b) <==> b in {9, 10, 12, 13, 32}
  {
  }

  lemma {:induction false} StripStep(s: Bytes)
    requires s != []
    ensures White(s[0]) ==> Strip(s) == Strip(s[1..])
    ensures !White(s[0]) ==> Strip(s) != [] && Strip(s)[0] == s[0] && Strip(s)[1..] == Strip(s[1..])
  {
    assert [] + Strip(s[1..]) == Strip(s[1..]);
  }

  lemma {:induction false} EncodingSpaced(s: Bytes, data: Bytes)
    ensures Spaced(s, Encode(data)) <==> Strip(s) == Encode(data)
  {
    EncodeUnstripped(data);
    SpacedIff(s, Encode(data));
  }

  /** Decoding inverts encoding, whatever whitespace was inserted into the text. */
  lemma {:induction false} DecodeInverts(data: Bytes, s: Bytes)
    requires Spaced(s, Encode(data))
    ensures Decode(s) == Some(data)
  {
    EncodingSpaced(s, data);
    GroupsRoundTrip(data);
  }

  lemma {:induction false} EncodeUnstripped(data: Bytes)
    ensures forall i :: 0 <= i < |Encode(data)| ==> !White(Encode(data)[i])
  {
    if data != [] {
      var k := if |data| <= 3 then |data| else 3;
      EncodeSplits(data);
      EncodeUnstripped(data[k..]);
      var g, rest := EncodeGroup(data[..k]), Encode(data[k..]);
      forall i | 0 <= i < |g| ensures !White(g[i]) { SymbolNotPad(Sextet(Packed(data[..k]), i)); }
      assert forall i :: 0 <= i < |g + rest| ==> (g + rest)[i] == if i < 4 then g[i] else rest[i - 4];
    }
  }

  lemma {:induction false} StripNothing(s: Bytes)
    requires forall i :: 0 <= i < |s| ==> !White(s[i])
    ensures Strip(s) == s
  {
    if s != [] {
      StripNothing(s[1..]);
    }
  }

  lemma {:induction false} RoundTrip(data: Bytes)
    ensures Decode(Encode(data)) == Some(data)
  {
    EncodeUnstripped(data);
    StripNothing(Encode(data));
    EncodingSpaced(Encode(data), data);
    DecodeInverts(data, Encode(data));
  }

  lemma GroupOf(c: Bytes, n: nat)
    requires 1 <= |c| <= 3 && Packed(c) == n
    ensures EncodeGroup(c) == [Symbol(Sextet(n, 0)), Symbol(Sextet(n, 1)),
      if |c| >= 2 then Symbol(Sextet(n, 2)) else 61, if |c| == 3 then Symbol(Sextet(n, 3)) else 61]
  {
  }

  /** Three of the examples of section 10 of RFC 4648: f, fo and foo. */
  lemma {:induction false} Examples()
    ensures Encode([102]) == [90, 103, 61, 61]
    ensures Encode([102, 111]) == [90, 109, 56, 61]
    ensures Encode([102, 111, 111]) == [90, 109, 57, 118]
  {
    GroupOf([102], 6_684_672);
    GroupOf([102, 111], 6_713_088);
    GroupOf([102, 111, 111], 6_713_199);
  }

  // ---- which texts decode ------------------------------------------------------------------------------------

  /** The bits of the last group that its padding discards. */
  function Discarded(g: Bytes, n: nat): nat {
    if PadCount(g) == 1 then n % 256 else if PadCount(g) == 2 then n % 65_536 else 0
  }

  /** The discarded bits of the text are zero (section 3.5 of RFC 4648). */
  predicate TailBitsZero(t: Bytes)
    requires |t| % 4 == 0
  {
    if t == [] then true
    else if |t| > 4 then TailBitsZero(t[4..])
    else
      && PadCount(t) <= 4 && GroupNumber(t, 4 - PadCount(t)).Some?
      && Discarded(t, GroupNumber(t, 4 - PadCount(t)).value) == 0
  }

  lemma SextetsUnique(n: nat, a: nat, b: nat, c: nat, d: nat)
    requires a < 64 && b < 64 && c < 64 && d < 64 && n == 262_144 * a + 4_096 * b + 64 * c + d
    ensures n < 16_777_216
    ensures Sextet(n, 0) == a && Sextet(n, 1) == b && Sextet(n, 2) == c && Sextet(n, 3) == d
  {
    assert n / 262_144 == a;
    assert n / 4_096 == 64 * a + b;
    assert n / 64 == 64 * (64 * a + b) + c;
  }

  lemma PackedThree(n: nat, k: nat)
    requires n < 16_777_216 && 1 <= k <= 3
    requires k == 2 ==> n % 256 == 0
    requires k == 1 ==> n % 65_536 == 0
    ensures Packed(Three(n)[..k]) == n
  {
    var hi, mid, lo := n / 65_536, n / 256 % 256, n % 256;
    assert n == 65_536 * hi + 256 * mid + lo;
    assert k == 1 ==> mid == 0 && lo == 0;
  }

  /** A group decodes to `c` with nothing discarded only if it is the encoding of `c`. */
  lemma {:induction false} GroupExact(g: Bytes, last: bool)
    requires |g| == 4 && DecodeGroup(g, last).Some? && Discarded(g, GroupNumber(g, 4 - PadCount(g)).value) == 0
    ensures 1 <= |DecodeGroup(g, last).value| <= 3 && EncodeGroup(DecodeGroup(g, last).value) == g
  {
    var pad := PadCount(g);
    var k := 3 - pad;
    var n := GroupNumber(g, k + 1).value;
    GroupNumbers(g);
    PadCountBounds(g);
    ValuesSmall(g[0], g[1], g[2], g[3]);
    var c := if k >= 2 then Value(g[2]).value else 0;
    var d := if k == 3 then Value(g[3]).value else 0;
    SextetsUnique(n, Value(g[0]).value, Value(g[1]).value, c, d);
    PackedThree(n, k);
    forall i | 0 <= i <= k ensures g[i] == Symbol(Sextet(n, i)) { ValueInverts(g[i], Sextet(n, i)); }
  }

  lemma GroupDiscardsZero(c: Bytes)
    requires 1 <= |c| <= 3
    ensures var g := EncodeGroup(c);
      PadCount(g) <= 4 && GroupNumber(g, 4 - PadCount(g)).Some? &&
        Discarded(g, GroupNumber(g, 4 - PadCount(g)).value) == 0
  {
    GroupPads(c);
    EncodedNumber(c);
    PackedTail(c);
  }

  lemma PackedTail(c: Bytes)
    requires 1 <= |c| <= 3
    ensures |c| == 2 ==> Packed(c) % 256 == 0
    ensures |c| == 1 ==> Packed(c) % 65_536 == 0
  {
  }

  lemma {:induction false} EncodeTailZero(data: Bytes)
    ensures |Encode(data)| % 4 == 0 && TailBitsZero(Encode(data))
    ensures Encode(data) == [] <==> data == []
  {
    if 0 < |data| <= 3 {
      GroupDiscardsZero(data);
    } else if data != [] {
      EncodeTailZero(data[3..]);
      assert Encode(data)[4..] == Encode(data[3..]);
    }
  }

  lemma {:induction false} TailZeroIsEncoded(t: Bytes)
    requires |t| % 4 == 0 && DecodeGroups(t).Some? && TailBitsZero(t)
    ensures Encode(DecodeGroups(t).value) == t
    ensures DecodeGroups(t).value == [] <==> t == []
    decreases |t|
  {
    if t != [] {
      var g, rest := t[..4], t[4..];
      DecodeGroupsStep(t);
      var c := DecodeGroup(g, |t| == 4).value;
      assert g + rest == t;
      if |t| == 4 {
        assert g == t;
        GroupExact(g, true);
        assert c + [] == c;
      } else {
        TailZeroIsEncoded(rest);
        GroupExact(g, false);
        EncodeSplits(c + DecodeGroups(rest).value);
      }
    }
  }

  /** The texts that decode to `data` and discard no bits are exactly those whose symbols are
      its encoding. */
  lemma {:induction false} DecodeExact(s: Bytes, data: Bytes)
    ensures |Strip(s)| % 4 == 0 && Decode(s) == Some(data) && TailBitsZero(Strip(s)) <==> Spaced(s, Encode(data))
  {
    EncodingSpaced(s, data);
    if Strip(s) == Encode(data) {
      DecodeInverts(data, s);
      EncodeTailZero(data);
    } else if |Strip(s)| % 4 == 0 && Decode(s).Some? && TailBitsZero(Strip(s)) {
      TailZeroIsEncoded(Strip(s));
    }
  }

  // ---- the two decoders -----------------------------------------------------------------------------------

  lemma Pow2Values()
    ensures Pow2(0) == 1 && Pow2(2) == 4 && Pow2(4) == 16
  {
    assert Pow2(4) == 4 * Pow2(2);
  }

  /** Four symbols leave the accumulator empty and emit the three bytes of their number. */
  lemma {:induction false} BitGroup(g: Bytes, rest: Bytes)
    requires |g| == 4 && GroupNumber(g, 4).Some?
    ensures BitRun(g + rest, 0, 0) == Before(Three(GroupNumber(g, 4).value), BitRun(rest, 0, 0))
  {
    GroupNumbers(g);
    Pow2Values();
    var s := g + rest;
    assert s[1..] == g[1..] + rest && s[1..][1..] == g[2..] + rest && s[1..][1..][1..] == g[3..] + rest &&
      s[1..][1..][1..][1..] == rest;
    BitFour(s, Value(g[0]).value, Value(g[1]).value, Value(g[2]).value, Value(g[3]).value);
  }

  lemma {:induction false} BitFour(s: Bytes, v0: nat, v1: nat, v2: nat, v3: nat)
    requires |s| >= 4 && Value(s[0]) == Some(v0) && Value(s[1]) == Some(v1) && Value(s[2]) == Some(v2) &&
      Value(s[3]) == Some(v3)
    ensures BitRun(s, 0, 0) == Before(Three(262_144 * v0 + 4_096 * v1 + 64 * v2 + v3),
      BitRun(s[1..][1..][1..][1..], 0, 0))
  {
    Pow2Values();
    ValuesSmall(s[0], s[1], s[2], s[3]);
    var a1 := 64 * v0 + v1;
    var a2 := 64 * (a1 % 16) + v2;
    assert BitRun(s, 0, 0) == BitRun(s[1..], v0, 6);
    EmitThree(s[1..], v0, v1, v2, v3, a1, a2, 64 * (a2 % 4) + v3);
    ThreeBytes(v0, v1, v2, v3);
  }

  /** The three symbols after the first of a group emit its bytes. */
  lemma {:induction false} EmitThree(s: Bytes, v0: nat, v1: nat, v2: nat, v3: nat, a1: nat, a2: nat, a3: nat)
    requires |s| >= 3 && Value(s[0]) == Some(v1) && Value(s[1]) == Some(v2) && Value(s[2]) == Some(v3)
    requires v0 < 64 && v1 < 64 && v2 < 64 && v3 < 64
    requires a1 == 64 * v0 + v1 && a2 == 64 * (a1 % 16) + v2 && a3 == 64 * (a2 % 4) + v3
    ensures BitRun(s, v0, 6) == Before([a1 / 16 % 256, a2 / 4 % 256, a3 % 256], BitRun(s[1..][1..][1..], 0, 0))
  {
    Pow2Values();
    var s1, s2, s3 := s[1..], s[1..][1..], s[1..][1..][1..];
    EmitStep(s, v0, 6, v1, 4);
    EmitStep(s1, a1 % 16, 4, v2, 2);
    EmitStep(s2, a2 % 4, 2, v3, 0);
    BeforeBefore([a2 / 4 % 256], [a3 % 256], BitRun(s3, 0, 0));
    BeforeBefore([a1 / 16 % 256], [a2 / 4 % 256] + [a3 % 256], BitRun(s3, 0, 0));
    assert [a1 / 16 % 256] + ([a2 / 4 % 256] + [a3 % 256]) == [a1 / 16 % 256, a2 / 4 % 256, a3 % 256];
  }

  lemma ValuesSmall(a: byte, b: byte, c: byte, d: byte)
    ensures Value(a).Some? ==> Value(a).value < 64
    ensures Value(b).Some? ==> Value(b).value < 64
    ensures Value(c).Some? ==> Value(c).value < 64
    ensures Value(d).Some? ==> Value(d).value < 64
  {
  }

  lemma {:induction false} EmitStep(s: Bytes, acc: nat, bits: nat, v: nat, left: nat)
    requires s != [] && Value(s[0]) == Some(v) && bits + 6 == left + 8
    ensures var a := 64 * acc + v;
      BitRun(s, acc, bits) == Before([a / Pow2(left) % 256], BitRun(s[1..], a % Pow2(left), left))
  {
  }

  lemma ThreeBytes(v0: nat, v1: nat, v2: nat, v3: nat)
    requires v0 < 64 && v1 < 64 && v2 < 64 && v3 < 64
    ensures var a1 := 64 * v0 + v1;
      && var a2 := 64 * (a1 % 16) + v2;
      && var a3 := 64 * (a2 % 4) + v3;
      && Three(262_144 * v0 + 4_096 * v1 + 64 * v2 + v3) == [a1 / 16 % 256, a2 / 4 % 256, a3 % 256]
  {
    var n := 262_144 * v0 + 4_096 * v1 + 64 * v2 + v3;
    HighByte(n, v0, v1, 64 * v2 + v3);
    MiddleByte(n, 64 * v0 + v1, v2, v3);
    LowByte(n, 64 * ((64 * v0 + v1) % 16) + v2, 64 * v0 + v1, v2, v3);
  }

  lemma HighByte(n: nat, v0: nat, v1: nat, low: nat)
    requires v0 < 64 && v1 < 64 && low < 4_096 && n == 262_144 * v0 + 4_096 * v1 + low
    ensures n / 65_536 % 256 == (64 * v0 + v1) / 16 % 256
  {
    assert n == 65_536 * (4 * v0 + v1 / 16) + (4_096 * (v1 % 16) + low);
    assert 64 * v0 + v1 == 16 * (4 * v0 + v1 / 16) + v1 % 16;
  }

  lemma Quotient256(q: nat, r: nat)
    requires r < 256
    ensures (256 * q + r) / 256 == q && (256 * q + r) % 256 == r
  {
  }

  lemma MiddleByte(n: nat, h: nat, v2: nat, v3: nat)
    requires v2 < 64 && v3 < 64 && n == 4_096 * h + 64 * v2 + v3
    ensures n / 256 % 256 == (64 * (h % 16) + v2) / 4 % 256
  {
    var q, r, x, y := h / 16, h % 16, v2 / 4, v2 % 4;
    assert h == 16 * q + r && v2 == 4 * x + y;
    Quotient256(256 * q + (16 * r + x), 64 * y + v3);
    Quotient256(q, 16 * r + x);
    FourthPart(16 * r + x, y);
  }

  lemma FourthPart(q: nat, r: nat)
    requires r < 4
    ensures (4 * q + r) / 4 == q
  {
  }

  lemma LowByte(n: nat, a2: nat, h: nat, v2: nat, v3: nat)
    requires v2 < 64 && v3 < 64 && n == 4_096 * h + 64 * v2 + v3 && a2 == 64 * (h % 16) + v2
    ensures n % 256 == (64 * (a2 % 4) + v3) % 256
  {
    assert a2 == 4 * (16 * (h % 16) + v2 / 4) + v2 % 4;
    assert a2 % 4 == v2 % 4;
    assert n == 256 * (16 * h + v2 / 4) + (64 * (v2 % 4) + v3);
  }

  /** Two or three symbols emit one or two bytes of their number. */
  lemma {:induction false} BitTwo(t: Bytes, v0: nat, v1: nat)
    requires |t| == 2 && Value(t[0]) == Some(v0) && Value(t[1]) == Some(v1)
    ensures BitRun(t, 0, 0) == Some(Three(262_144 * v0 + 4_096 * v1)[..1])
  {
    Pow2Values();
    ValuesSmall(t[0], t[1], t[0], t[1]);
    assert BitRun(t, 0, 0) == BitRun(t[1..], v0, 6);
    EmitStep(t[1..], v0, 6, v1, 4);
    assert t[1..][1..] == [];
    ThreeBytes(v0, v1, 0, 0);
    assert [(64 * v0 + v1) / 16 % 256] + [] == Three(262_144 * v0 + 4_096 * v1)[..1];
  }

  lemma {:induction false} BitThree(t: Bytes, v0: nat, v1: nat, v2: nat)
    requires |t| == 3 && Value(t[0]) == Some(v0) && Value(t[1]) == Some(v1) && Value(t[2]) == Some(v2)
    ensures BitRun(t, 0, 0) == Some(Three(262_144 * v0 + 4_096 * v1 + 64 * v2)[..2])
  {
    Pow2Values();
    ValuesSmall(t[0], t[1], t[2], t[1]);
    var a1 := 64 * v0 + v1;
    assert BitRun(t, 0, 0) == BitRun(t[1..], v0, 6);
    EmitStep(t[1..], v0, 6, v1, 4);
    EmitStep(t[1..][1..], a1 % 16, 4, v2, 2);
    assert t[1..][1..][1..] == [];
    ThreeBytes(v0, v1, v2, 0);
    var a2 := 64 * (a1 % 16) + v2;
    assert [a1 / 16 % 256] + ([a2 / 4 % 256] + []) == Three(262_144 * v0 + 4_096 * v1 + 64 * v2)[..2];
  }

  /** The last, padded group. */
  lemma {:induction false} BitTail(g: Bytes)
    requires |g| == 4 && 1 <= PadCount(g) <= 2 && GroupNumber(g, 4 - PadCount(g)).Some?
    ensures BitRun(g[..4 - PadCount(g)], 0, 0) == Some(Three(GroupNumber(g, 4 - PadCount(g)).value)[..3 - PadCount(g)])
  {
    GroupNumbers(g);
    if PadCount(g) == 1 {
      BitThree(g[..3], Value(g[0]).value, Value(g[1]).value, Value(g[2]).value);
    } else {
      BitTwo(g[..2], Value(g[0]).value, Value(g[1]).value);
    }
  }

  lemma {:induction false} TrimAppend(g: Bytes, s: Bytes)
    requires s == [] || s[0] != PAD
    requires s == [] ==> g == [] || g[|g| - 1] != PAD
    ensures TrimPad(g + s) == g + TrimPad(s)
    decreases |s|
  {
    if s == [] {
      assert g + s == g;
    } else if s[|s| - 1] == PAD {
      assert (g + s)[..|g + s| - 1] == g + s[..|s| - 1];
      TrimAppend(g, s[..|s| - 1]);
    }
  }

  lemma {:induction false} TrimIsPadCount(s: Bytes)
    ensures PadCount(s) <= |s| && TrimPad(s) == s[..|s| - PadCount(s)]
    decreases |s|
  {
    if s != [] && s[|s| - 1] == PAD {
      TrimIsPadCount(s[..|s| - 1]);
    }
  }

  lemma GroupStart(g: Bytes, last: bool)
    requires |g| == 4 && DecodeGroup(g, last).Some?
    ensures g[0] != PAD
    ensures !last ==> g[3] != PAD
  {
    GroupNumbers(g);
    PadCountBounds(g);
  }

  lemma {:induction false} WholeGroup(g: Bytes, last: bool)
    requires |g| == 4 && PadCount(g) == 0
    ensures DecodeGroup(g, last) == if GroupNumber(g, 4).Some? then Some(Three(GroupNumber(g, 4).value)) else None
  {
    if GroupNumber(g, 4).Some? {
      assert Three(GroupNumber(g, 4).value)[..3] == Three(GroupNumber(g, 4).value);
    }
  }

  lemma {:induction false} TrimGroups(g: Bytes, rest: Bytes)
    requires |g| == 4 && PadCount(g) == 0 && |rest| % 4 == 0 && DecodeGroups(rest).Some?
    ensures TrimPad(g + rest) == g + TrimPad(rest)
  {
    PadCountBounds(g);
    if rest != [] {
      DecodeGroupsStep(rest);
      GroupStart(rest[..4], |rest| == 4);
      assert rest[0] == rest[..4][0];
    }
    TrimAppend(g, rest);
  }

  lemma {:induction false} OpenGroupAgrees(g: Bytes, rest: Bytes)
    requires |g| == 4 && PadCount(g) == 0 && GroupNumber(g, 4).Some? && |rest| % 4 == 0 && DecodeGroups(rest).Some?
    ensures BitDecode(g + rest) == Before(Three(GroupNumber(g, 4).value), BitDecode(rest))
  {
    TrimGroups(g, rest);
    BitGroup(g, TrimPad(rest));
  }

  lemma {:induction false} LastGroupAgrees(s: Bytes)
    requires |s| == 4 && PadCount(s) > 0 && DecodeGroups(s).Some?
    ensures BitDecode(s) == DecodeGroups(s)
  {
    assert s[..4] == s && s[4..] == [];
    DecodeGroupsStep(s);
    TrimIsPadCount(s);
    BitTail(s);
    assert DecodeGroup(s, true).value + [] == DecodeGroup(s, true).value;
  }

  lemma {:induction false} GroupsAgree(s: Bytes)
    requires |s| % 4 == 0 && DecodeGroups(s).Some?
    ensures BitDecode(s) == DecodeGroups(s)
    decreases |s|
  {
    if s != [] {
      DecodeGroupsStep(s);
      if PadCount(s[..4]) == 0 {
        GroupsAgree(s[4..]);
        WholeGroup(s[..4], |s| == 4);
        OpenGroupAgrees(s[..4], s[4..]);
        assert s[..4] + s[4..] == s;
      } else {
        assert s[..4] == s;
        LastGroupAgrees(s);
      }
    }
  }

  /** On every whitespace-free text the padded decoder accepts, the bit accumulator returns the
      same bytes. */
  lemma DecodersAgree(s: Bytes)
    requires forall i :: 0 <= i < |s| ==> s[i] !in {9, 10, 12, 13, 32}
    requires Decode(s).Some?
    ensures BitDecode(s) == Decode(s)
  {
    StripNothing(s);
    GroupsAgree(s);
  }
}
