/** UTF-8 (section 3 of RFC 3629) and surrogate pairs (section 2 of RFC 2781). */
module Utf8 {
  import opened Text

  predicate IsScalar(u: int) {
    0 <= u < 0xD800 || 0xE000 <= u < 0x110000
  }

  /** The bytes `_parse_codepoint` appends. The code's shifts are divisions, its masks are remainders,
      and its `|` joins disjoint bits, so each is written as a sum. */
  function Encode(u: int): (b: Bytes)
    requires 0 <= u < 0x110000
    ensures 1 <= |b| <= 4
  {
    if u < 0x80 then
      [u]
    else if u < 0x800 then
      [0xC0 + u / 64, 0x80 + u % 64]
    else if u < 0x10000 then
      [0xE0 + u / 4096, 0x80 + u / 64 % 64, 0x80 + u % 64]
    else
      [0xF0 + u / 262144, 0x80 + u / 4096 % 64, 0x80 + u / 64 % 64, 0x80 + u % 64]
  }

  predicate IsTail(b: int) {
    0x80 <= b <= 0xBF
  }

  /** `b` is a well-formed sequence of `n` bytes by the grammar in section 4 of RFC 3629: overlong forms,
      surrogates and values above U+10FFFF have no rule, so they are refused. */
  predicate Starts(b: Bytes, n: nat)
    requires n <= |b|
  {
    match n
    case 1 => b[0] <= 0x7F
    case 2 => 0xC2 <= b[0] <= 0xDF && IsTail(b[1])
    case 3 =>
      && IsTail(b[2])
      && (|| (b[0] == 0xE0 && 0xA0 <= b[1] <= 0xBF)
          || (0xE1 <= b[0] <= 0xEC && IsTail(b[1]))
          || (b[0] == 0xED && 0x80 <= b[1] <= 0x9F)
          || (0xEE <= b[0] <= 0xEF && IsTail(b[1])))
    case 4 =>
      && IsTail(b[2]) && IsTail(b[3])
      && (|| (b[0] == 0xF0 && 0x90 <= b[1] <= 0xBF)
          || (0xF1 <= b[0] <= 0xF3 && IsTail(b[1]))
          || (b[0] == 0xF4 && 0x80 <= b[1] <= 0x8F))
    case _ => false
  }

  function Push(q: int, tailByte: int): int {
    q * 64 + (tailByte - 0x80)
  }

  /** Reference decoder for one character. */
  function Decode(b: Bytes): Option<(int, nat)> {
    if |b| >= 1 && Starts(b, 1) then
      Some((b[0], 1))
    else if |b| >= 2 && Starts(b, 2) then
      Some((Push(b[0] as int - 0xC0, b[1]), 2))
    else if |b| >= 3 && Starts(b, 3) then
      Some((Push(Push(b[0] as int - 0xE0, b[1]), b[2]), 3))
    else if |b| >= 4 && Starts(b, 4) then
      Some((Push(Push(Push(b[0] as int - 0xF0, b[1]), b[2]), b[3]), 4))
    else
      None
  }

  /** Decoding what was encoded gives the scalar back, whatever follows it. */
  lemma DecodeEncode(u: int, tail: Bytes)
    requires IsScalar(u)
    ensures Decode(Encode(u) + tail) == Some((u, |Encode(u)|))
  {
    var e := Encode(u);
    var b := e + tail;
    assert forall i :: 0 <= i < |e| ==> b[i] == e[i];
    if u >= 0x800 {
      Radix64(u);
      Radix64(u / 64);
      if u >= 0x10000 {
        Radix64(u / 64 / 64);
      }
    }
  }

  lemma Radix64(u: nat)
    ensures u == 64 * (u / 64) + u % 64
    ensures u / 64 / 64 == u / 4096 && u / 4096 / 64 == u / 262144
  {
  }

  lemma PushInverse(q: nat, t: int)
    requires IsTail(t)
    ensures Push(q, t) / 64 == q && Push(q, t) % 64 == t - 0x80
  {
  }

  lemma TwoBytes(b: Bytes)
    requires |b| >= 2 && Starts(b, 2)
    ensures var u := Push(b[0] as int - 0xC0, b[1]); 0x80 <= u < 0x800 && Encode(u) == b[..2]
  {
    PushInverse(b[0] as int - 0xC0, b[1]);
  }

  lemma ThreeBytes(b: Bytes)
    requires |b| >= 3 && Starts(b, 3)
    ensures var u := Push(Push(b[0] as int - 0xE0, b[1]), b[2]);
      0x800 <= u < 0x10000 && IsScalar(u) && Encode(u) == b[..3]
  {
    var q := Push(b[0] as int - 0xE0, b[1]);
    PushInverse(b[0] as int - 0xE0, b[1]);
    PushInverse(q, b[2]);
    Radix64(Push(q, b[2]));
  }

  lemma FourBytes(b: Bytes)
    requires |b| >= 4 && Starts(b, 4)
    ensures var u := Push(Push(Push(b[0] as int - 0xF0, b[1]), b[2]), b[3]);
      0x10000 <= u < 0x110000 && Encode(u) == b[..4]
  {
    var q := Push(b[0] as int - 0xF0, b[1]);
    var r := Push(q, b[2]);
    PushInverse(b[0] as int - 0xF0, b[1]);
    PushInverse(q, b[2]);
    PushInverse(r, b[3]);
    Radix64(Push(r, b[3]));
  }

  /** The encoding is the only byte string that decodes to the scalar, so no shorter one exists. */
  lemma EncodeDecode(b: Bytes)
    requires Decode(b).Some?
    ensures var (u, n) := Decode(b).value; IsScalar(u) && n <= |b| && b[..n] == Encode(u)
  {
    var (u, n) := Decode(b).value;
    match n
    case 2 => TwoBytes(b);
    case 3 => ThreeBytes(b);
    case 4 => FourBytes(b);
    case _ =>
  }

  /** A whole text of well-formed characters. */
  predicate Valid(b: Bytes) {
    b == [] || (Decode(b).Some? && Decode(b).value.1 <= |b| && Valid(b[Decode(b).value.1..]))
  }

  /** Decoding looks at the character's own bytes only. */
  lemma DecodeLocal(b: Bytes, tail: Bytes)
    requires Decode(b).Some?
    ensures Decode(b + tail) == Decode(b)
  {
    var n := Decode(b).value.1;
    assert forall i :: 0 <= i < |b| ==> (b + tail)[i] == b[i];
  }

  lemma {:induction false} ValidJoins(a: Bytes, b: Bytes)
    requires Valid(a) && Valid(b)
    ensures Valid(a + b)
  {
    hide Decode;
    if a == [] {
      assert a + b == b;
    } else {
      DecodeLocal(a, b);
      DecodeSize(a);
      var n := Decode(a).value.1;
      assert (a + b)[n..] == a[n..] + b;
      ValidJoins(a[n..], b);
    }
  }

  lemma DecodeSize(b: Bytes)
    requires Decode(b).Some?
    ensures 1 <= Decode(b).value.1 <= |b|
    ensures b[0] < 0x80 ==> Decode(b).value.1 == 1
    ensures b[0] >= 0x80 ==> forall i :: 0 <= i < Decode(b).value.1 ==> b[i] >= 0x80
  {
  }

  lemma EncodingValid(u: int)
    requires IsScalar(u)
    ensures Valid(Encode(u))
  {
    DecodeEncode(u, []);
    assert Encode(u) + [] == Encode(u);
  }

  predicate IsHigh(u: int) {
    0xD800 <= u <= 0xDBFF
  }

  predicate IsLow(u: int) {
    0xDC00 <= u <= 0xDFFF
  }

  /** The two code units of a supplementary scalar (section 2.1 of RFC 2781). */
  function HighUnit(u: int): (h: int)
    requires 0x10000 <= u < 0x110000
    ensures IsHigh(h)
  {
    0xD800 + (u - 0x10000) / 1024
  }

  function LowUnit(u: int): (l: int)
    requires 0x10000 <= u < 0x110000
    ensures IsLow(l)
  {
    0xDC00 + (u - 0x10000) % 1024
  }

  /** How the parser joins a pair: shift by 10, or, then add 0x10000. */
  function Combine(high: int, low: int): (u: int)
    requires IsHigh(high) && IsLow(low)
    ensures 0x10000 <= u < 0x110000
  {
    (high - 0xD800) * 1024 + (low - 0xDC00) + 0x10000
  }

  /** Pairs and supplementary scalars correspond one to one. */
  lemma CombineUnits(u: int)
    requires 0x10000 <= u < 0x110000
    ensures Combine(HighUnit(u), LowUnit(u)) == u
  {
  }

  lemma UnitsCombine(high: int, low: int)
    requires IsHigh(high) && IsLow(low)
    ensures HighUnit(Combine(high, low)) == high && LowUnit(Combine(high, low)) == low
  {
  }

  /** A code unit is a scalar or a half of a pair, and only one of these. */
  lemma UnitKinds(u: int)
    requires 0 <= u < 0x10000
    ensures IsScalar(u) <==> !(IsHigh(u) || IsLow(u))
    ensures !(IsHigh(u) && IsLow(u))
    ensures IsHigh(u) <==> 0 <= u - 0xD800 < 1024
    ensures IsLow(u) <==> 0 <= u - 0xDC00 < 1024
  {
  }
}
