/** UTF-8 through whole texts: reading UTF-8 gives UTF-8 keys and strings at every depth, and printing those gives
    UTF-8 back. */
module JsonUtf8Texts {
  import opened Text
  import opened JsonValue
  import Utf8
  import P = JsonPrinter
  import R = JsonReader
  import opened JsonLaws
  import opened JsonUtf8
  import JsonRoundTrip

  const DEFAULT := R.DefaultContext

  /** Every key and every string in `v` is UTF-8. */
  predicate Utf8Value(v: Value) {
    match v
    case String(s) => Utf8.Valid(s)
    case Array(elems) => forall i :: 0 <= i < |elems| ==> Utf8Value(elems[i])
    case Object(members) => forall i :: 0 <= i < |members| ==> Utf8.Valid(members[i].key) && Utf8Value(members[i].val)
    case _ => true
  }

  // ---- Reading ----

  lemma {:induction false} SkipKeeps(s: Bytes)
    requires Utf8.Valid(s)
    ensures Utf8.Valid(R.SkipWs(s))
  {
    hide Utf8.Valid;
    if s != [] && R.IsWs(s[0]) {
      AsciiStep(s);
      SkipKeeps(s[1..]);
    }
  }

  lemma ExpectKeeps(s: Bytes, b: byte)
    requires Utf8.Valid(s) && b < 0x80
    ensures Utf8.Valid(R.Expect(s, b).rest)
  {
    hide Utf8.Valid;
    SkipKeeps(s);
    var t := R.SkipWs(s);
    if t != [] && t[0] == b {
      AsciiStep(t);
    }
  }

  lemma {:induction false} MatchKeeps(s: Bytes, pattern: Bytes)
    requires Utf8.Valid(s) && (forall i :: 0 <= i < |pattern| ==> pattern[i] < 0x80)
    ensures Utf8.Valid(R.Match(s, pattern, R.Held).rest) || R.Match(s, pattern, R.Held).val.None?
    decreases pattern
  {
    hide Utf8.Valid;
    if pattern != [] && s != [] && s[0] == pattern[0] {
      AsciiStep(s);
      MatchKeeps(s[1..], pattern[1..]);
    }
  }

  lemma NumKeeps(libc: Libc, s: Bytes)
    requires Utf8.Valid(s)
    ensures Utf8.Valid(R.Num(libc, s).rest)
  {
    hide Utf8.Valid;
    AsciiSteps(s, R.NumSpan(s));
  }

  predicate Keeps(r: R.Result<Value>) {
    r.val.Some? ==> Utf8Value(r.val.value) && Utf8.Valid(r.rest)
  }

  /** From a UTF-8 text, only UTF-8 keys and strings are read, at every depth, and UTF-8 is left. */
  lemma {:induction false} ParseKeepsUtf8(libc: Libc, s: Bytes)
    requires Utf8.Valid(s)
    ensures Keeps(R.Parse(libc, DEFAULT, s))
    decreases |s|, 1
  {
    hide R.Str, R.Match, R.Num, R.ParseItems, R.ParseMembers, R.Expect, R.SkipWs, Utf8.Valid;
    SkipKeeps(s);
    var t := R.SkipWs(s);
    if t != [] && t[0] < 0x80 {
      AsciiStep(t);
      if t[0] == 110 {
        MatchKeeps(t[1..], [117, 108, 108]);
      } else if t[0] == 102 {
        MatchKeeps(t[1..], [97, 108, 115, 101]);
      } else if t[0] == 116 {
        MatchKeeps(t[1..], [114, 117, 101]);
      } else if t[0] == QUOTE {
        Empty();
        StrKeepsUtf8(t[1..], []);
      } else if t[0] == OPEN_BRACKET {
        ExpectKeeps(t[1..], CLOSE_BRACKET);
        ItemsKeep(libc, R.Expect(t[1..], CLOSE_BRACKET).rest, []);
      } else if t[0] == OPEN_BRACE {
        ExpectKeeps(t[1..], CLOSE_BRACE);
        MembersKeep(libc, R.Expect(t[1..], CLOSE_BRACE).rest, []);
      } else {
        NumKeeps(libc, t);
      }
    }
  }

  lemma Empty()
    ensures Utf8.Valid([])
  {
  }

  lemma {:induction false} ItemsKeep(libc: Libc, s: Bytes, acc: seq<Value>)
    requires Utf8.Valid(s) && Utf8Value(Array(acc))
    ensures Keeps(R.ParseItems(libc, DEFAULT, s, acc))
    decreases |s|, 2
  {
    hide R.Parse, R.Expect, Utf8.Valid;
    ParseKeepsUtf8(libc, s);
    var item := R.Parse(libc, DEFAULT, s);
    if item.val.Some? {
      assert Utf8Value(Array(acc + [item.val.value]));
      ExpectKeeps(item.rest, COMMA);
      var c := R.Expect(item.rest, COMMA);
      if c.val.Some? {
        ItemsKeep(libc, c.rest, acc + [item.val.value]);
      } else {
        ExpectKeeps(c.rest, CLOSE_BRACKET);
      }
    }
  }

  lemma KeyKeeps(s: Bytes)
    requires Utf8.Valid(s) && R.Key(s).val.Some?
    ensures Utf8.Valid(R.Key(s).val.value) && Utf8.Valid(R.Key(s).rest)
  {
    hide R.Str, R.Expect, Utf8.Valid;
    ExpectKeeps(s, QUOTE);
    Empty();
    var q := R.Expect(s, QUOTE);
    StrKeepsUtf8(q.rest, []);
    ExpectKeeps(R.Str(q.rest, true, []).rest, COLON);
  }

  lemma {:induction false} MembersKeep(libc: Libc, s: Bytes, acc: seq<Member>)
    requires Utf8.Valid(s) && Utf8Value(Object(acc))
    ensures Keeps(R.ParseMembers(libc, DEFAULT, s, acc))
    decreases |s|, 2
  {
    hide R.Parse, R.Expect, R.Key, Utf8.Valid, Put;
    var k := R.Key(s);
    if k.val.Some? {
      KeyKeeps(s);
      ParseKeepsUtf8(libc, k.rest);
      var item := R.Parse(libc, DEFAULT, k.rest);
      if item.val.Some? {
        PutKeepsUtf8(acc, k.val.value, item.val.value);
        ExpectKeeps(item.rest, COMMA);
        var c := R.Expect(item.rest, COMMA);
        if c.val.Some? {
          MembersKeep(libc, c.rest, Put(acc, k.val.value, item.val.value));
        } else {
          ExpectKeeps(c.rest, CLOSE_BRACE);
        }
      }
    }
  }

  lemma PutKeepsUtf8(acc: seq<Member>, key: Bytes, v: Value)
    requires Utf8Value(Object(acc)) && Utf8.Valid(key) && Utf8Value(v)
    ensures Utf8Value(Object(Put(acc, key, v)))
  {
    hide Utf8.Valid, Put;
    var ms := Put(acc, key, v);
    forall i | 0 <= i < |ms| ensures Utf8.Valid(ms[i].key) && Utf8Value(ms[i].val) {
      PutKeys(acc, key, v, ms[i]);
    }
  }

  // ---- Printing ----

  lemma {:induction false} AsciiValid(s: Bytes)
    requires forall i :: 0 <= i < |s| ==> s[i] < 0x80
    ensures Utf8.Valid(s)
  {
    if s != [] {
      AsciiValid(s[1..]);
    }
  }

  lemma EscapeAscii(b: byte)
    requires b < 0x80
    ensures Utf8.Valid(P.EscapeByte(b))
  {
    AsciiValid(P.EscapeByte(b));
  }

  lemma {:induction false} EscapeRaw(e: Bytes, s: Bytes)
    requires forall i :: 0 <= i < |e| ==> e[i] >= 0x80
    ensures P.Escape(e + s) == e + P.Escape(s)
  {
    if e == [] {
      assert e + s == s && e + P.Escape(s) == P.Escape(s);
    } else {
      assert (e + s)[1..] == e[1..] + s;
      EscapeRaw(e[1..], s);
      assert e == [e[0]] + e[1..];
      Assoc([e[0]], e[1..], P.Escape(s));
    }
  }

  lemma {:induction false} EscapeKeeps(s: Bytes)
    requires Utf8.Valid(s)
    ensures Utf8.Valid(P.Escape(s))
    decreases |s|
  {
    hide Utf8.Decode, P.EscapeByte;
    if s != [] {
      if s[0] < 0x80 {
        AsciiStep(s);
        EscapeKeeps(s[1..]);
        EscapeAscii(s[0]);
        Utf8.ValidJoins(P.EscapeByte(s[0]), P.Escape(s[1..]));
      } else {
        Utf8.DecodeSize(s);
        var n := Utf8.Decode(s).value.1;
        assert s == s[..n] + s[n..];
        EscapeRaw(s[..n], s[n..]);
        OneCharacter(s);
        EscapeKeeps(s[n..]);
        Utf8.ValidJoins(s[..n], P.Escape(s[n..]));
      }
    }
  }

  lemma Joins3(a: Bytes, b: Bytes, c: Bytes)
    requires Utf8.Valid(a) && Utf8.Valid(b) && Utf8.Valid(c)
    ensures Utf8.Valid(a + b + c)
  {
    hide Utf8.Valid;
    Utf8.ValidJoins(a, b);
    Utf8.ValidJoins(a + b, c);
  }

  lemma Ascii(b: byte)
    requires b < 0x80
    ensures Utf8.Valid([b])
  {
    AsciiValid([b]);
  }

  lemma QuotedKeeps(s: Bytes)
    requires Utf8.Valid(s)
    ensures Utf8.Valid(P.Quoted(s))
  {
    hide Utf8.Valid, P.Escape;
    Ascii(QUOTE);
    EscapeKeeps(s);
    Joins3([QUOTE], P.Escape(s), [QUOTE]);
  }

  lemma ScalarKeeps(libc: Libc, v: Value)
    requires Faithful(libc, v) && Utf8Value(v) && !v.Array? && !v.Object?
    ensures Utf8.Valid(P.Serialize(libc, v))
  {
    hide Utf8.Valid, NumberText, P.Quoted;
    if v.String? {
      QuotedKeeps(v.s);
    } else {
      AsciiValid(P.Serialize(libc, v));
    }
  }

  lemma {:induction false} PrintKeepsUtf8(libc: Libc, v: Value)
    requires Faithful(libc, v) && Utf8Value(v)
    ensures Utf8.Valid(P.Serialize(libc, v))
    decreases v, 1
  {
    hide Utf8.Valid, P.SerializeElems, P.SerializeMembers;
    match v
    case Array(elems) =>
      ElemsKeep(libc, elems);
      Ascii(OPEN_BRACKET);
      Ascii(CLOSE_BRACKET);
      Joins3([OPEN_BRACKET], P.SerializeElems(libc, elems), [CLOSE_BRACKET]);
    case Object(members) =>
      PrintMembersKeep(libc, members);
      Ascii(OPEN_BRACE);
      Ascii(CLOSE_BRACE);
      Joins3([OPEN_BRACE], P.SerializeMembers(libc, members), [CLOSE_BRACE]);
    case _ => ScalarKeeps(libc, v);
  }

  lemma {:induction false} ElemsKeep(libc: Libc, elems: seq<Value>)
    requires forall i :: 0 <= i < |elems| ==> Faithful(libc, elems[i]) && Utf8Value(elems[i])
    ensures Utf8.Valid(P.SerializeElems(libc, elems))
    decreases elems, 0
  {
    hide Utf8.Valid, P.Serialize, Faithful, Utf8Value;
    Empty();
    if elems != [] {
      var first := P.Serialize(libc, elems[0]);
      PrintKeepsUtf8(libc, elems[0]);
      if |elems| > 1 {
        ElemsKeep(libc, elems[1..]);
        Ascii(COMMA);
        Utf8.ValidJoins([COMMA], P.SerializeElems(libc, elems[1..]));
        Utf8.ValidJoins(first, [COMMA] + P.SerializeElems(libc, elems[1..]));
      } else {
        assert first + [] == first;
      }
    }
  }

  lemma {:induction false} PrintMembersKeep(libc: Libc, members: seq<Member>)
    requires forall i :: 0 <= i < |members| ==>
               Faithful(libc, members[i].val) && Utf8.Valid(members[i].key) && Utf8Value(members[i].val)
    ensures Utf8.Valid(P.SerializeMembers(libc, members))
    decreases members, 0
  {
    hide Utf8.Valid, P.Serialize, P.Quoted, Faithful, Utf8Value;
    Empty();
    if members != [] {
      var m := members[0];
      var head := P.Quoted(m.key) + [COLON];
      var first := head + P.Serialize(libc, m.val);
      QuotedKeeps(m.key);
      Ascii(COLON);
      PrintKeepsUtf8(libc, m.val);
      Joins3(P.Quoted(m.key), [COLON], P.Serialize(libc, m.val));
      if |members| > 1 {
        PrintMembersKeep(libc, members[1..]);
        Ascii(COMMA);
        Utf8.ValidJoins([COMMA], P.SerializeMembers(libc, members[1..]));
        Utf8.ValidJoins(first, [COMMA] + P.SerializeMembers(libc, members[1..]));
      } else {
        assert first + [] == first;
      }
    }
  }

  /** The printed text is UTF-8 exactly if every key and every string in the value is. */
  lemma PrintedUtf8Iff(libc: Libc, v: Value)
    requires Faithful(libc, v)
    ensures Utf8.Valid(P.Serialize(libc, v)) <==> Utf8Value(v)
  {
    hide Utf8.Valid, P.Serialize, Faithful, Utf8Value, R.Parse;
    if Utf8Value(v) {
      PrintKeepsUtf8(libc, v);
    }
    if Utf8.Valid(P.Serialize(libc, v)) {
      JsonRoundTrip.RoundTrip(libc, v, []);
      assert P.Serialize(libc, v) + [] == P.Serialize(libc, v);
      ParseKeepsUtf8(libc, P.Serialize(libc, v));
    }
  }
}
