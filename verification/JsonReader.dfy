/** What the picojson reader does, as functions on the bytes not yet consumed.
    The logical remainder counts a pushed-back byte as unread. Beside the remainder, each function tells
    how the cursor was left, so that the cursor's fields follow from its answer (see `JsonInput`). */
module JsonReader {
  import opened Text
  import opened JsonValue
  import opened Utf8

  /** How the last byte was left: taken, pushed back, or missing because the input had ended. */
  datatype Mode = Held | Pushed | Blank

  datatype Result<+T> = Result(val: Option<T>, rest: Bytes, mode: Mode)

  /** `default_parse_context` builds the value; `null_parse_context` builds nothing. */
  datatype Context = DefaultContext | NullContext {
    function Keep(v: Value): Value {
      if DefaultContext? then v else Null
    }
  }

  /** `getc` followed by `ungetc`. */
  function Peeked(s: Bytes): Mode {
    if s == [] then Blank else Pushed
  }

  predicate IsWs(b: int) {
    b == 32 || b == 9 || b == 10 || b == 13
  }

  function SkipWs(s: Bytes): (r: Bytes)
    ensures |r| <= |s| && (r == [] || !IsWs(r[0]))
  {
    if s != [] && IsWs(s[0]) then SkipWs(s[1..]) else s
  }

  function Expect(s: Bytes, b: byte): (r: Result<()>)
    ensures |r.rest| <= |s| && (r.val.Some? ==> |r.rest| < |s|)
  {
    var t := SkipWs(s);
    if t != [] && t[0] == b then Result(Some(()), t[1..], Held) else Result(None, t, Peeked(t))
  }

  function Match(s: Bytes, pattern: Bytes, mode: Mode): (r: Result<()>)
    ensures |r.rest| <= |s|
    decreases pattern
  {
    if pattern == [] then Result(Some(()), s, mode)
    else if s == [] then Result(None, [], Blank)
    else if s[0] != pattern[0] then Result(None, s, Pushed)
    else Match(s[1..], pattern[1..], Held)
  }

  /** Value of a hex digit of either case, or -1. */
  function HexValue(b: int): (n: int)
    ensures -1 <= n < 16
  {
    if 48 <= b <= 57 then b - 48
    else if 65 <= b <= 70 then b - 55
    else if 97 <= b <= 102 then b - 87
    else -1
  }

  predicate AllHex(s: Bytes) {
    forall i :: 0 <= i < |s| ==> HexValue(s[i]) != -1
  }

  function HexNumber(s: Bytes): nat
    requires AllHex(s)
  {
    if s == [] then 0 else HexNumber(s[..|s| - 1]) * 16 + HexValue(s[|s| - 1])
  }

  lemma HexNumberFour(s: Bytes)
    requires |s| == 4 && AllHex(s)
    ensures HexNumber(s) == HexValue(s[0]) * 4096 + HexValue(s[1]) * 256 + HexValue(s[2]) * 16 + HexValue(s[3])
    ensures HexNumber(s) < 0x10000
  {
    assert s[..3][..2] == s[..2] && s[..2][..1] == s[..1] && s[..1][..0] == [];
    assert HexNumber(s[..1]) == HexValue(s[0]);
    assert HexNumber(s[..2]) == HexNumber(s[..1]) * 16 + HexValue(s[1]);
    assert HexNumber(s[..3]) == HexNumber(s[..2]) * 16 + HexValue(s[2]);
  }

  function HexSpan(s: Bytes): (n: nat)
    ensures n <= |s| && (n < |s| ==> HexValue(s[n]) == -1) && AllHex(s[..n])
  {
    if s != [] && HexValue(s[0]) != -1 then
      assert s[..1 + HexSpan(s[1..])] == [s[0]] + s[1..][..HexSpan(s[1..])];
      1 + HexSpan(s[1..])
    else 0
  }

  lemma HexNone(s: Bytes)
    ensures AllHex(s[..0]) && HexNumber(s[..0]) == 0
  {
  }

  /** One more byte extends the digits read so far, or ends them. */
  lemma HexStep(s: Bytes, i: nat)
    requires i < |s| && i <= HexSpan(s) && AllHex(s[..i])
    ensures HexValue(s[i]) == -1 ==> HexSpan(s) == i
    ensures HexValue(s[i]) != -1 ==>
      i < HexSpan(s) && AllHex(s[..i + 1]) && HexNumber(s[..i + 1]) == HexNumber(s[..i]) * 16 + HexValue(s[i])
  {
    hide HexValue, HexSpan, HexNumber, AllHex;
    HexSpanHas(s, i);
    if HexValue(s[i]) != -1 {
      HexAppend(s[..i], s[i]);
      assert s[..i + 1] == s[..i] + [s[i]];
    }
  }

  lemma HexAppend(h: Bytes, b: byte)
    requires AllHex(h) && HexValue(b) != -1
    ensures AllHex(h + [b]) && HexNumber(h + [b]) == HexNumber(h) * 16 + HexValue(b)
  {
    hide HexValue;
    assert (h + [b])[..|h|] == h;
  }

  lemma HexSpanHas(s: Bytes, i: nat)
    requires i < |s|
    ensures i < HexSpan(s) ==> HexValue(s[i]) != -1
    ensures i == HexSpan(s) ==> HexValue(s[i]) == -1
  {
    assert i < HexSpan(s) ==> s[..HexSpan(s)][i] == s[i];
  }

  /** Four hex digits, or everything before the first byte that is not one. */
  function QuadHex(s: Bytes): (r: Result<nat>)
    ensures |r.rest| <= |s| && (r.val.Some? ==> r.val.value < 0x10000)
  {
    var n := HexSpan(s);
    if n < 4 then Result(None, s[n..], Peeked(s[n..]))
    else
      assert forall i :: 0 <= i < 4 ==> s[..4][i] == s[..n][i];
      HexNumberFour(s[..4]);
      Result(Some(HexNumber(s[..4])), s[4..], Held)
  }

  /** The `\u` a second surrogate must start with. A backslash is lost when no `u` follows it. */
  function SlashU(s: Bytes): (r: Result<()>)
    ensures |r.rest| <= |s| && (r.val.Some? ==> r.mode == Held)
  {
    if s == [] then Result(None, [], Blank)
    else if s[0] != BACKSLASH then Result(None, s, Pushed)
    else if s[1..] == [] then Result(None, [], Blank)
    else if s[1] != 117 then Result(None, s[1..], Pushed)
    else Result(Some(()), s[2..], Held)
  }

  /** What follows `\u`: one code unit, or a surrogate pair, as UTF-8. */
  function Codepoint(s: Bytes): (r: Result<Bytes>)
    ensures |r.rest| <= |s|
  {
    var first := QuadHex(s);
    if first.val.None? then Result(None, first.rest, first.mode)
    else
      var u := first.val.value;
      if IsLow(u) then Result(None, first.rest, first.mode)
      else if IsHigh(u) then
        var link := SlashU(first.rest);
        if link.val.None? then Result(None, link.rest, link.mode)
        else
          var second := QuadHex(link.rest);
          if second.val.None? || !IsLow(second.val.value) then Result(None, second.rest, second.mode)
          else Result(Some(Encode(Combine(u, second.val.value))), second.rest, second.mode)
      else Result(Some(Encode(u)), first.rest, first.mode)
  }

  /** The byte a one-letter escape stands for, or -1. */
  function Unescaped(b: int): (v: int)
    ensures -1 <= v < 256
  {
    match b
    case 34 => 34
    case 92 => 92
    case 47 => 47
    case 98 => 8
    case 102 => 12
    case 110 => 10
    case 114 => 13
    case 116 => 9
    case _ => -1
  }

  /** The body of a string literal. `keep` is false for the `dummy_str` of the null context. */
  function Str(s: Bytes, keep: bool, acc: Bytes): (r: Result<Bytes>)
    ensures |r.rest| <= |s| && (r.val.Some? ==> |r.rest| < |s|)
    decreases |s|
  {
    if s == [] then Result(None, [], Blank)
    else if s[0] < 32 then Result(None, s, Pushed)
    else if s[0] == QUOTE then Result(Some(acc), s[1..], Held)
    else if s[0] == BACKSLASH then
      var t := s[1..];
      if t == [] then Result(None, [], Blank)
      else if Unescaped(t[0]) != -1 then Str(t[1..], keep, Add(keep, acc, [Unescaped(t[0])]))
      else if t[0] == 117 then
        var c := Codepoint(t[1..]);
        if c.val.None? then Result(None, c.rest, c.mode) else Str(c.rest, keep, Add(keep, acc, c.val.value))
      else Result(None, t[1..], Held)
    else Str(s[1..], keep, Add(keep, acc, [s[0]]))
  }

  function Add(keep: bool, acc: Bytes, bs: Bytes): Bytes {
    if keep then acc + bs else acc
  }

  predicate IsNumChar(b: int) {
    48 <= b <= 57 || b == 43 || b == 45 || b == 46 || b == 101 || b == 69
  }

  /** How many leading bytes `_parse_number` collects. */
  function NumSpan(s: Bytes): (n: nat)
    ensures n <= |s| && (n < |s| ==> !IsNumChar(s[n]))
    ensures forall i :: 0 <= i < n ==> IsNumChar(s[i])
  {
    if s != [] && IsNumChar(s[0]) then 1 + NumSpan(s[1..]) else 0
  }

  function Num(libc: Libc, s: Bytes): (r: Result<real>)
    ensures |r.rest| <= |s|
  {
    var n := NumSpan(s);
    Result(libc.strtod(s[..n]), s[n..], Peeked(s[n..]))
  }

  /** `_parse`. */
  function Parse(libc: Libc, ctx: Context, s: Bytes): (r: Result<Value>)
    ensures |r.rest| <= |s| && (r.val.Some? ==> |r.rest| < |s|)
    decreases |s|, 1
  {
    var t := SkipWs(s);
    if t == [] then Result(None, [], Blank)
    else if t[0] == 110 then Literal(t[1..], [117, 108, 108], Null)
    else if t[0] == 102 then Literal(t[1..], [97, 108, 115, 101], ctx.Keep(Bool(false)))
    else if t[0] == 116 then Literal(t[1..], [114, 117, 101], ctx.Keep(Bool(true)))
    else if t[0] == QUOTE then
      var r := Str(t[1..], ctx.DefaultContext?, []);
      Result(if r.val.Some? then Some(ctx.Keep(String(r.val.value))) else None, r.rest, r.mode)
    else if t[0] == OPEN_BRACKET then ParseArray(libc, ctx, t[1..])
    else if t[0] == OPEN_BRACE then ParseObject(libc, ctx, t[1..])
    else if IsDigit(t[0]) || t[0] == MINUS then
      var r := Num(libc, t);
      Result(if r.val.Some? then Some(ctx.Keep(Number(r.val.value))) else None, r.rest, r.mode)
    else Result(None, t, Pushed)
  }

  function Literal(s: Bytes, pattern: Bytes, v: Value): (r: Result<Value>)
    ensures |r.rest| <= |s|
  {
    var r := Match(s, pattern, Held);
    Result(if r.val.Some? then Some(v) else None, r.rest, r.mode)
  }

  function ParseArray(libc: Libc, ctx: Context, s: Bytes): (r: Result<Value>)
    ensures |r.rest| <= |s|
    decreases |s|, 3
  {
    var e := Expect(s, CLOSE_BRACKET);
    if e.val.Some? then Result(Some(ctx.Keep(Array([]))), e.rest, e.mode)
    else ParseItems(libc, ctx, e.rest, [])
  }

  function ParseItems(libc: Libc, ctx: Context, s: Bytes, acc: seq<Value>): (r: Result<Value>)
    ensures |r.rest| <= |s|
    decreases |s|, 2
  {
    var item := Parse(libc, ctx, s);
    if item.val.None? then item
    else
      var acc' := if ctx.DefaultContext? then acc + [item.val.value] else acc;
      var c := Expect(item.rest, COMMA);
      if c.val.Some? then ParseItems(libc, ctx, c.rest, acc')
      else
        var e := Expect(c.rest, CLOSE_BRACKET);
        Result(if e.val.Some? then Some(ctx.Keep(Array(acc'))) else None, e.rest, e.mode)
  }

  function ParseObject(libc: Libc, ctx: Context, s: Bytes): (r: Result<Value>)
    ensures |r.rest| <= |s|
    decreases |s|, 3
  {
    var e := Expect(s, CLOSE_BRACE);
    if e.val.Some? then Result(Some(ctx.Keep(Object([]))), e.rest, e.mode)
    else ParseMembers(libc, ctx, e.rest, [])
  }

  /** `"key" :`, the part of a member before its value. */
  function Key(s: Bytes): (r: Result<Bytes>)
    ensures |r.rest| <= |s| && (r.val.Some? ==> |r.rest| < |s|)
  {
    var q := Expect(s, QUOTE);
    if q.val.None? then Result(None, q.rest, q.mode)
    else
      var k := Str(q.rest, true, []);
      if k.val.None? then k
      else
        var c := Expect(k.rest, COLON);
        if c.val.None? then Result(None, c.rest, c.mode) else Result(k.val, c.rest, c.mode)
  }

  function ParseMembers(libc: Libc, ctx: Context, s: Bytes, acc: seq<Member>): (r: Result<Value>)
    ensures |r.rest| <= |s|
    decreases |s|, 2
  {
    var k := Key(s);
    if k.val.None? then Result(None, k.rest, k.mode)
    else
      var item := Parse(libc, ctx, k.rest);
      if item.val.None? then item
      else
        var acc' := if ctx.DefaultContext? then Put(acc, k.val.value, item.val.value) else acc;
        var c := Expect(item.rest, COMMA);
        if c.val.Some? then ParseMembers(libc, ctx, c.rest, acc')
        else
          var e := Expect(c.rest, CLOSE_BRACE);
          Result(if e.val.Some? then Some(ctx.Keep(Object(acc'))) else None, e.rest, e.mode)
  }
}
