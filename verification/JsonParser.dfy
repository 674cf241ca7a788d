/** The `_parse*` functions of picojson over the mutable cursor, each proved to do what `JsonReader` says. */
module JsonParser {
  import opened Text
  import opened JsonValue
  import Utf8
  import R = JsonReader
  import In = JsonInput

  method ParseQuadHex(inp: In.Input) returns (uni: int)
    requires inp.Valid() && inp.Mode() == R.Held
    modifies inp
    ensures inp.Valid()
    ensures var r := R.QuadHex(old(inp.rest));
      && inp.rest == r.rest && inp.Mode() == r.mode
      && uni == if r.val.Some? then r.val.value else -1
  {
    hide In.Input.Valid, R.HexSpan, R.AllHex, R.HexNumber;
    uni := 0;
    ghost var s := inp.rest;
    assert R.AllHex(s[..0]) && R.HexNumber(s[..0]) == 0 by { R.HexNone(s); }
    for i := 0 to 4
      invariant inp.Valid() && inp.Mode() == R.Held
      invariant i <= R.HexSpan(s) && inp.rest == s[i..]
      invariant R.AllHex(s[..i]) && uni == R.HexNumber(s[..i])
    {
      if i < |s| {
        R.HexStep(s, i);
      }
      var hex := inp.GetC();
      if hex == -1 {
        return -1;
      }
      if 48 <= hex <= 57 {
        hex := hex - 48;
      } else if 65 <= hex <= 70 {
        hex := hex - (65 - 10);
      } else if 97 <= hex <= 102 {
        hex := hex - (97 - 10);
      } else {
        inp.UngetC();
        return -1;
      }
      uni := uni * 16 + hex;
    }
  }

  /** `in.getc() != '\\' || in.getc() != 'u'`, with the push-back of the branch it guards. */
  method SlashU(inp: In.Input) returns (ok: bool)
    requires inp.Valid()
    modifies inp
    ensures inp.Valid()
    ensures var r := R.SlashU(old(inp.rest)); ok == r.val.Some? && inp.rest == r.rest && inp.Mode() == r.mode
  {
    var ch := inp.GetC();
    if ch == BACKSLASH {
      ch := inp.GetC();
      if ch == 117 {
        return true;
      }
    }
    inp.UngetC();
    return false;
  }

  /** The `push_back` calls at the end of `_parse_codepoint`. */
  method AppendUtf8(out: Bytes, uni: int) returns (out': Bytes)
    requires 0 <= uni < 0x110000
    ensures out' == out + Utf8.Encode(uni)
  {
    out' := out;
    if uni < 0x80 {
      out' := out' + [uni];
    } else {
      if uni < 0x800 {
        out' := out' + [0xC0 + uni / 64];
      } else {
        if uni < 0x10000 {
          out' := out' + [0xE0 + uni / 4096];
        } else {
          out' := out' + [0xF0 + uni / 262144];
          out' := out' + [0x80 + uni / 4096 % 64];
        }
        out' := out' + [0x80 + uni / 64 % 64];
      }
      out' := out' + [0x80 + uni % 64];
    }
  }

  method ParseCodepoint(out: Bytes, inp: In.Input) returns (ok: bool, out': Bytes)
    requires inp.Valid() && inp.Mode() == R.Held
    modifies inp
    ensures inp.Valid()
    ensures var r := R.Codepoint(old(inp.rest));
      && inp.rest == r.rest && inp.Mode() == r.mode && ok == r.val.Some?
      && (ok ==> out' == out + r.val.value)
  {
    hide In.Input.Valid, R.QuadHex, R.SlashU, Utf8.Encode;
    out' := out;
    var uni := ParseQuadHex(inp);
    if uni == -1 {
      return false, out';
    }
    if 0xD800 <= uni <= 0xDFFF {
      if 0xDC00 <= uni {
        return false, out';
      }
      var link := SlashU(inp);
      if !link {
        return false, out';
      }
      var second := ParseQuadHex(inp);
      if !(0xDC00 <= second <= 0xDFFF) {
        return false, out';
      }
      uni := (uni - 0xD800) * 1024 + (second - 0xDC00) % 1024;
      uni := uni + 0x10000;
    }
    out' := AppendUtf8(out, uni);
    return true, out';
  }

  /** `out` is a `std::string` when `keep` holds, else the `dummy_str` that ignores `push_back`. */
  method ParseString(keep: bool, inp: In.Input) returns (ok: bool, out: Bytes)
    requires inp.Valid()
    modifies inp
    ensures inp.Valid()
    ensures var r := R.Str(old(inp.rest), keep, []);
      && inp.rest == r.rest && inp.Mode() == r.mode && ok == r.val.Some?
      && (ok ==> out == r.val.value)
  {
    hide In.Input.Valid, R.Codepoint;
    out := [];
    while true
      invariant inp.Valid()
      invariant R.Str(inp.rest, keep, out) == R.Str(old(inp.rest), keep, [])
      decreases |inp.rest|
    {
      var ch := inp.GetC();
      if ch < 32 {
        inp.UngetC();
        return false, out;
      } else if ch == QUOTE {
        return true, out;
      } else if ch == BACKSLASH {
        ch := inp.GetC();
        if ch == -1 {
          return false, out;
        }
        var plain := R.Unescaped(ch);
        if plain != -1 {
          out := R.Add(keep, out, [plain]);
        } else if ch == 117 {
          ghost var c := R.Codepoint(inp.rest);
          var decoded;
          ok, decoded := ParseCodepoint([], inp);
          if !ok {
            return false, out;
          }
          assert decoded == c.val.value;
          out := R.Add(keep, out, decoded);
        } else {
          return false, out;
        }
      } else {
        out := R.Add(keep, out, [ch]);
      }
    }
  }

  method ParseNumber(libc: Libc, inp: In.Input) returns (f: Option<real>)
    requires inp.Valid()
    modifies inp
    ensures inp.Valid()
    ensures var r := R.Num(libc, old(inp.rest)); f == r.val && inp.rest == r.rest && inp.Mode() == r.mode
  {
    hide In.Input.Valid;
    var text: Bytes := [];
    ghost var s := inp.rest;
    while true
      invariant inp.Valid()
      invariant |text| <= R.NumSpan(s) && text == s[..|text|] && inp.rest == s[|text|..]
      decreases |inp.rest|
    {
      var ch := inp.GetC();
      if R.IsNumChar(ch) {
        text := text + [ch];
      } else {
        inp.UngetC();
        break;
      }
    }
    return libc.strtod(text);
  }

  method Parse(libc: Libc, ctx: R.Context, inp: In.Input) returns (ok: bool, v: Value)
    requires inp.Valid()
    modifies inp
    ensures inp.Valid()
    ensures var r := R.Parse(libc, ctx, old(inp.rest));
      && inp.rest == r.rest && inp.Mode() == r.mode && ok == r.val.Some?
      && (ok ==> v == r.val.value)
    decreases |inp.rest|, 1
  {
    ghost var start := inp.rest;
    hide In.Input.Valid;
    v := Null;
    inp.SkipWs();
    ghost var t := inp.rest;
    var ch := inp.GetC();
    if ch == 110 {
      ok := inp.Match([117, 108, 108]);
    } else if ch == 102 {
      ok := inp.Match([97, 108, 115, 101]);
      v := ctx.Keep(Bool(false));
    } else if ch == 116 {
      ok := inp.Match([114, 117, 101]);
      v := ctx.Keep(Bool(true));
    } else if ch == QUOTE {
      var s;
      ok, s := ParseString(ctx.DefaultContext?, inp);
      v := ctx.Keep(String(s));
    } else if ch == OPEN_BRACKET {
      ok, v := ParseArray(libc, ctx, inp);
    } else if ch == OPEN_BRACE {
      ok, v := ParseObject(libc, ctx, inp);
    } else if IsDigit(ch) || ch == 45 {
      inp.UngetC();
      var f := ParseNumber(libc, inp);
      ok := f.Some?;
      if ok {
        v := ctx.Keep(Number(f.value));
      }
    } else {
      inp.UngetC();
      ok := false;
    }
  }

  method ParseArray(libc: Libc, ctx: R.Context, inp: In.Input) returns (ok: bool, v: Value)
    requires inp.Valid()
    modifies inp
    ensures inp.Valid()
    ensures var r := R.ParseArray(libc, ctx, old(inp.rest));
      && inp.rest == r.rest && inp.Mode() == r.mode && ok == r.val.Some?
      && (ok ==> v == r.val.value)
    decreases |inp.rest|, 3
  {
    hide In.Input.Valid;
    v := Null;
    var elems: seq<Value> := [];
    var empty := inp.Expect(CLOSE_BRACKET);
    if empty {
      return true, ctx.Keep(Array(elems));
    }
    ghost var first := inp.rest;
    var more := true;
    while more
      invariant inp.Valid() && |inp.rest| <= |first| <= |old(inp.rest)|
      invariant more ==> R.ParseItems(libc, ctx, inp.rest, elems) == R.ParseItems(libc, ctx, first, [])
      invariant !more ==>
        var e := R.Expect(inp.rest, CLOSE_BRACKET);
        R.ParseItems(libc, ctx, first, []) ==
          R.Result(if e.val.Some? then Some(ctx.Keep(Array(elems))) else None, e.rest, e.mode)
      decreases more, |inp.rest|
    {
      var item;
      ok, item := Parse(libc, ctx, inp);
      if !ok {
        return false, v;
      }
      if ctx.DefaultContext? {
        elems := elems + [item];
      }
      more := inp.Expect(COMMA);
    }
    ok := inp.Expect(CLOSE_BRACKET);
    v := ctx.Keep(Array(elems));
  }

  method ParseObject(libc: Libc, ctx: R.Context, inp: In.Input) returns (ok: bool, v: Value)
    requires inp.Valid()
    modifies inp
    ensures inp.Valid()
    ensures var r := R.ParseObject(libc, ctx, old(inp.rest));
      && inp.rest == r.rest && inp.Mode() == r.mode && ok == r.val.Some?
      && (ok ==> v == r.val.value)
    decreases |inp.rest|, 3
  {
    hide In.Input.Valid;
    v := Null;
    var members: seq<Member> := [];
    var empty := inp.Expect(CLOSE_BRACE);
    if empty {
      return true, ctx.Keep(Object(members));
    }
    ghost var first := inp.rest;
    var more := true;
    while more
      invariant inp.Valid() && |inp.rest| <= |first| <= |old(inp.rest)|
      invariant more ==> R.ParseMembers(libc, ctx, inp.rest, members) == R.ParseMembers(libc, ctx, first, [])
      invariant !more ==>
        var e := R.Expect(inp.rest, CLOSE_BRACE);
        R.ParseMembers(libc, ctx, first, []) ==
          R.Result(if e.val.Some? then Some(ctx.Keep(Object(members))) else None, e.rest, e.mode)
      decreases more, |inp.rest|
    {
      var key;
      ok, key := ParseKey(inp);
      if !ok {
        return false, v;
      }
      var item;
      ok, item := Parse(libc, ctx, inp);
      if !ok {
        return false, v;
      }
      if ctx.DefaultContext? {
        members := Put(members, key, item);
      }
      more := inp.Expect(COMMA);
    }
    ok := inp.Expect(CLOSE_BRACE);
    v := ctx.Keep(Object(members));
  }

  method ParseKey(inp: In.Input) returns (ok: bool, key: Bytes)
    requires inp.Valid()
    modifies inp
    ensures inp.Valid()
    ensures var r := R.Key(old(inp.rest));
      && inp.rest == r.rest && inp.Mode() == r.mode && ok == r.val.Some?
      && (ok ==> key == r.val.value)
  {
    hide In.Input.Valid;
    key := [];
    ok := inp.Expect(QUOTE);
    if ok {
      ok, key := ParseString(true, inp);
      if ok {
        ok := inp.Expect(COLON);
      }
    }
  }

  /** What follows "near: ": the printable bytes up to the end of the line. */
  function Near(s: Bytes): Bytes {
    if s == [] || s[0] == In.LF then [] else (if s[0] >= 32 then [s[0]] else []) + Near(s[1..])
  }

  /** What is behind that line. */
  function NextLine(s: Bytes): (t: Bytes)
    ensures |t| <= |s|
  {
    if s == [] || s[0] == In.LF then (if s == [] then [] else s[1..]) else NextLine(s[1..])
  }

  /** "syntax error at line " */
  const AT_LINE: Bytes := [
    115, 121, 110, 116, 97, 120, 32, 101, 114, 114, 111, 114, 32, 97, 116, 32, 108, 105, 110, 101, 32]
  /** " near: " */
  const NEAR: Bytes := [32, 110, 101, 97, 114, 58, 32]

  /** The iterator left after a successful parse: a pushed-back byte counts as read. */
  function IteratorAfter(r: R.Result<Value>, data: Bytes): nat
    requires |r.rest| <= |data|
  {
    |data| - |r.rest| + if r.mode.Pushed? then 1 else 0
  }

  /** Appends the rest of the offending line to the message. */
  method ReportNear(inp: In.Input, err: Bytes) returns (err': Bytes)
    requires inp.Valid()
    modifies inp
    ensures inp.Valid() && err' == err + Near(old(inp.rest))
    ensures inp.rest == NextLine(old(inp.rest)) && inp.Mode() != R.Pushed
  {
    hide In.Input.Valid;
    err' := err;
    while true
      invariant inp.Valid()
      invariant err' + Near(inp.rest) == err + Near(old(inp.rest))
      invariant NextLine(inp.rest) == NextLine(old(inp.rest))
      decreases |inp.rest|
    {
      ghost var s := inp.rest;
      var ch := inp.GetC();
      if ch == -1 || ch == In.LF {
        assert Near(s) == [];
        break;
      } else if ch >= 32 {
        assert Near(s) == [ch] + Near(inp.rest);
        err' := err' + [ch];
      }
    }
  }

  /** The entry point that takes a text and reports errors. An empty `err` means success. */
  method ParseText(libc: Libc, ctx: R.Context, data: Bytes) returns (cur: nat, v: Value, err: Bytes)
    ensures var r := R.Parse(libc, ctx, data);
      && (err == [] <==> r.val.Some?)
      && (r.val.Some? ==> v == r.val.value && cur == IteratorAfter(r, data))
      && (r.val.None? ==>
            && IteratorAfter(r, data) <= |data| && cur == |data| - |NextLine(r.rest)|
            && err == AT_LINE + Decimal(In.LineAt(data, IteratorAfter(r, data))) + NEAR + Near(r.rest))
  {
    hide In.Input.Valid, R.Parse, Near, NextLine, Decimal;
    var inp := new In.Input(data);
    var ok;
    ok, v := Parse(libc, ctx, inp);
    err := [];
    inp.FieldsFollow();
    if !ok {
      err := ReportNear(inp, AT_LINE + Decimal(inp.line) + NEAR);
      inp.FieldsFollow();
    }
    return inp.cur, v, err;
  }
}
