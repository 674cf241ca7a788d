/** Numbers that survive printing, and facts about the scanner and the `\u` escapes. */
module JsonLaws {
  import opened Text
  import opened JsonValue
  import R = JsonReader
  import Utf8

  // ---- Values that can survive a round trip ----

  /** The printed number is a number token that `strtod` maps back. */
  predicate NumberReads(libc: Libc, r: real) {
    var t := NumberText(libc, r);
    && t != [] && (IsDigit(t[0]) || t[0] == MINUS)
    && (forall i :: 0 <= i < |t| ==> R.IsNumChar(t[i]))
    && libc.strtod(t) == Some(r)
  }

  /** Numbers survive printing and objects are key-ordered, at every depth. */
  predicate Faithful(libc: Libc, v: Value) {
    match v
    case Number(r) => NumberReads(libc, r)
    case Array(elems) => forall i :: 0 <= i < |elems| ==> Faithful(libc, elems[i])
    case Object(members) =>
      Sorted(members) && forall i :: 0 <= i < |members| ==> Faithful(libc, members[i].val)
    case _ => true
  }

  /** `strtod` is exact on the integers below 2^53 in magnitude. */
  ghost predicate Exact(libc: Libc) {
    forall n: int :: -TWO53 < n < TWO53 ==> libc.strtod(Decimal(n)) == Some(n as real)
  }

  /** A `strtod` that reads plain decimal numerals is one. */
  lemma ExactIsPossible()
    ensures exists libc :: Exact(libc)
  {
    var libc := Libc(s => match Numeral(s) { case Some(n) => Some(n as real) case None => None }, _ => []);
    forall n: int | -TWO53 < n < TWO53 ensures libc.strtod(Decimal(n)) == Some(n as real) {
      NumeralDecimal(n);
    }
    assert Exact(libc);
  }

  /** Under that contract every such integer survives printing. */
  lemma IntegersRead(libc: Libc, n: int)
    requires Exact(libc) && -TWO53 < n < TWO53
    ensures NumberReads(libc, n as real)
  {
    assert (n as real).Floor == n;
  }

  // ---- Scanner facts ----

  predicate AllWs(gap: Bytes) {
    forall i :: 0 <= i < |gap| ==> R.IsWs(gap[i])
  }

  lemma {:induction false} SkipGap(gap: Bytes, s: Bytes)
    requires AllWs(gap) && s != [] && !R.IsWs(s[0])
    ensures R.SkipWs(gap + s) == s
  {
    if gap == [] {
      assert gap + s == s;
    } else {
      assert (gap + s)[1..] == gap[1..] + s;
      SkipGap(gap[1..], s);
    }
  }

  lemma {:induction false} SkipTwice(s: Bytes)
    ensures R.SkipWs(R.SkipWs(s)) == R.SkipWs(s)
  {
  }

  /** The reader starts by skipping white space, so skipping it first changes nothing. */
  lemma ParseSkips(libc: Libc, ctx: R.Context, s: Bytes)
    ensures R.Parse(libc, ctx, R.SkipWs(s)) == R.Parse(libc, ctx, s)
  {
    SkipTwice(s);
  }

  lemma {:induction false} NumSpanIs(t: Bytes, s: Bytes)
    requires forall i :: 0 <= i < |t| ==> R.IsNumChar(t[i])
    requires s == [] || !R.IsNumChar(s[0])
    ensures R.NumSpan(t + s) == |t|
  {
    if t == [] {
      assert t + s == s;
    } else {
      assert (t + s)[1..] == t[1..] + s;
      NumSpanIs(t[1..], s);
    }
  }

  // ---- \u escapes ----

  /** `h` spells the code unit `u` in four hex digits of either case. */
  predicate Spells(h: Bytes, u: int) {
    IsUnit(h) && R.HexNumber(h) == u
  }

  predicate IsUnit(h: Bytes) {
    |h| == 4 && R.AllHex(h)
  }

  lemma {:induction false} HexSpanAtLeast(h: Bytes, s: Bytes)
    requires R.AllHex(h)
    ensures R.HexSpan(h + s) >= |h|
  {
    if h != [] {
      assert (h + s)[1..] == h[1..] + s;
      HexSpanAtLeast(h[1..], s);
    }
  }

  lemma QuadHexReads(h: Bytes, u: int, s: Bytes)
    requires Spells(h, u)
    ensures R.QuadHex(h + s) == R.Result(Some(u), s, R.Held) && 0 <= u < 0x10000
  {
    HexSpanAtLeast(h, s);
    R.HexNumberFour(h);
    assert (h + s)[..4] == h && (h + s)[4..] == s;
  }

  /** A scalar of the basic plane, written as one escape, becomes its UTF-8 encoding. */
  lemma EscapedScalar(h: Bytes, u: int, s: Bytes)
    requires Spells(h, u) && Utf8.IsScalar(u)
    ensures R.Codepoint(h + s) == R.Result(Some(Utf8.Encode(u)), s, R.Held)
  {
    hide R.QuadHex;
    QuadHexReads(h, u, s);
  }

  const SLASH_U: Bytes := [92, 117]

  /** Any two code units in the right order are joined. */
  lemma EscapedUnits(h: Bytes, l: Bytes, s: Bytes)
    requires IsUnit(h) && IsUnit(l) && Utf8.IsHigh(R.HexNumber(h)) && Utf8.IsLow(R.HexNumber(l))
    ensures R.Codepoint(h + (SLASH_U + (l + s)))
         == R.Result(Some(Utf8.Encode(Utf8.Combine(R.HexNumber(h), R.HexNumber(l)))), s, R.Held)
  {
    hide R.QuadHex, Utf8.Encode, Utf8.Combine;
    var t := SLASH_U + (l + s);
    QuadHexReads(h, R.HexNumber(h), t);
    assert t[2..] == l + s;
    QuadHexReads(l, R.HexNumber(l), s);
  }

  /** A supplementary scalar, written as its surrogate pair, becomes its UTF-8 encoding. */
  lemma EscapedPair(h: Bytes, l: Bytes, u: int, s: Bytes)
    requires 0x10000 <= u < 0x110000
    requires Spells(h, Utf8.HighUnit(u)) && Spells(l, Utf8.LowUnit(u))
    ensures R.Codepoint(h + (SLASH_U + (l + s))) == R.Result(Some(Utf8.Encode(u)), s, R.Held)
  {
    hide R.Codepoint, Utf8.Encode, Utf8.HighUnit, Utf8.LowUnit, Utf8.Combine;
    EscapedUnits(h, l, s);
    Utf8.CombineUnits(u);
  }

  /** Nothing else is accepted: a lone, repeated or misordered surrogate is refused, as are other bytes. */
  lemma CodepointAccepts(s: Bytes)
    ensures R.Codepoint(s).val.Some? <==>
      || (|s| >= 4 && R.AllHex(s[..4]) && Utf8.IsScalar(R.HexNumber(s[..4])))
      || (&& |s| >= 10 && R.AllHex(s[..4]) && Utf8.IsHigh(R.HexNumber(s[..4]))
          && s[4..6] == SLASH_U && R.AllHex(s[6..10]) && Utf8.IsLow(R.HexNumber(s[6..10])))
  {
    hide R.QuadHex, Utf8.Encode, Utf8.Combine;
    QuadHexDecides(s);
    if |s| >= 4 && R.AllHex(s[..4]) {
      var t := s[4..];
      assert |t| >= 2 ==> s[4..6] == [t[0], t[1]] && t[2..] == s[6..];
      QuadHexDecides(t);
      if |t| >= 2 {
        QuadHexDecides(s[6..]);
        assert |s| >= 10 ==> s[6..][..4] == s[6..10];
      }
    }
  }

  lemma QuadHexDecides(s: Bytes)
    ensures R.QuadHex(s).val.Some? <==> |s| >= 4 && R.AllHex(s[..4])
    ensures R.QuadHex(s).val.Some? ==>
      && R.QuadHex(s) == R.Result(Some(R.HexNumber(s[..4])), s[4..], R.Held)
      && R.HexNumber(s[..4]) < 0x10000
  {
    var n := R.HexSpan(s);
    assert forall i :: 0 <= i < n ==> s[..n][i] == s[i];
    if |s| >= 4 && R.AllHex(s[..4]) {
      HexSpanAtLeast(s[..4], s[4..]);
      assert s[..4] + s[4..] == s;
    }
  }
}
