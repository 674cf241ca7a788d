/** The two parse contexts read alike, and what the building one builds is well formed. */
module JsonContexts {
  import opened Text
  import opened JsonValue
  import R = JsonReader
  import In = JsonInput

  const BUILD := R.DefaultContext
  const SKIP := R.NullContext

  /** Same verdict, same bytes left, cursor left the same way. */
  predicate Alike<A, B>(a: R.Result<A>, b: R.Result<B>) {
    a.val.Some? == b.val.Some? && a.rest == b.rest && a.mode == b.mode
  }

  lemma {:induction false} StrAlike(s: Bytes, acc: Bytes, acc': Bytes)
    ensures Alike(R.Str(s, true, acc), R.Str(s, false, acc'))
    decreases |s|
  {
    hide R.Codepoint;
    if s == [] || s[0] < 32 || s[0] == QUOTE {
    } else if s[0] == BACKSLASH {
      var t := s[1..];
      if t == [] {
      } else if R.Unescaped(t[0]) != -1 {
        StrAlike(t[1..], acc + [R.Unescaped(t[0])], acc');
      } else if t[0] == 117 && R.Codepoint(t[1..]).val.Some? {
        var c := R.Codepoint(t[1..]);
        StrAlike(c.rest, acc + c.val.value, acc');
      }
    } else {
      StrAlike(s[1..], acc + [s[0]], acc');
    }
  }

  /** For every text, `null_parse_context` and `default_parse_context` accept or reject alike and leave the
      same remainder in the same way. */
  lemma {:induction false} ParseAlike(libc: Libc, s: Bytes)
    ensures Alike(R.Parse(libc, BUILD, s), R.Parse(libc, SKIP, s))
    decreases |s|, 1
  {
    hide R.Str, R.Match, R.Num, R.ParseItems, R.ParseMembers, R.Expect;
    var t := R.SkipWs(s);
    if t != [] {
      if t[0] == QUOTE {
        StrAlike(t[1..], [], []);
      } else if t[0] == OPEN_BRACKET {
        var e := R.Expect(t[1..], CLOSE_BRACKET);
        ItemsAlike(libc, e.rest, [], []);
      } else if t[0] == OPEN_BRACE {
        var e := R.Expect(t[1..], CLOSE_BRACE);
        MembersAlike(libc, e.rest, [], []);
      }
    }
  }

  /** So two cursors over one text, one driven by each context, end with the same four fields. */
  lemma SameCursor(libc: Libc, a: In.Input, b: In.Input)
    requires a.Valid() && b.Valid() && a.data == b.data
    requires var r := R.Parse(libc, BUILD, a.data); a.rest == r.rest && a.Mode() == r.mode
    requires var r := R.Parse(libc, SKIP, b.data); b.rest == r.rest && b.Mode() == r.mode
    ensures a.cur == b.cur && a.lastCh == b.lastCh && a.ungot == b.ungot && a.line == b.line
  {
    ParseAlike(libc, a.data);
    a.FieldsFollow();
    b.FieldsFollow();
  }

  lemma {:induction false} ItemsAlike(libc: Libc, s: Bytes, acc: seq<Value>, acc': seq<Value>)
    ensures Alike(R.ParseItems(libc, BUILD, s, acc), R.ParseItems(libc, SKIP, s, acc'))
    decreases |s|, 2
  {
    hide R.Parse, R.Expect;
    ParseAlike(libc, s);
    var item := R.Parse(libc, BUILD, s);
    if item.val.Some? {
      var c := R.Expect(item.rest, COMMA);
      if c.val.Some? {
        ItemsAlike(libc, c.rest, acc + [item.val.value], acc');
      }
    }
  }

  lemma {:induction false} MembersAlike(libc: Libc, s: Bytes, acc: seq<Member>, acc': seq<Member>)
    ensures Alike(R.ParseMembers(libc, BUILD, s, acc), R.ParseMembers(libc, SKIP, s, acc'))
    decreases |s|, 2
  {
    hide R.Parse, R.Expect, R.Key;
    var k := R.Key(s);
    if k.val.Some? {
      ParseAlike(libc, k.rest);
      var item := R.Parse(libc, BUILD, k.rest);
      if item.val.Some? {
        var c := R.Expect(item.rest, COMMA);
        if c.val.Some? {
          MembersAlike(libc, c.rest, Put(acc, k.val.value, item.val.value), acc');
        }
      }
    }
  }

  /** Whatever the text, duplicate and unsorted keys included, the value built is key-ordered throughout. */
  lemma {:induction false} ParseOrdered(libc: Libc, s: Bytes)
    ensures var r := R.Parse(libc, BUILD, s); r.val.Some? ==> Ordered(r.val.value)
    decreases |s|, 1
  {
    hide R.Str, R.Match, R.Num, R.ParseItems, R.ParseMembers, R.Expect;
    var t := R.SkipWs(s);
    if t != [] {
      if t[0] == OPEN_BRACKET {
        var e := R.Expect(t[1..], CLOSE_BRACKET);
        ItemsOrdered(libc, e.rest, []);
      } else if t[0] == OPEN_BRACE {
        var e := R.Expect(t[1..], CLOSE_BRACE);
        MembersOrdered(libc, e.rest, []);
      }
    }
  }

  lemma {:induction false} ItemsOrdered(libc: Libc, s: Bytes, acc: seq<Value>)
    requires Ordered(Array(acc))
    ensures var r := R.ParseItems(libc, BUILD, s, acc); r.val.Some? ==> Ordered(r.val.value)
    decreases |s|, 2
  {
    hide R.Parse, R.Expect;
    ParseOrdered(libc, s);
    var item := R.Parse(libc, BUILD, s);
    if item.val.Some? {
      assert Ordered(Array(acc + [item.val.value]));
      var c := R.Expect(item.rest, COMMA);
      if c.val.Some? {
        ItemsOrdered(libc, c.rest, acc + [item.val.value]);
      }
    }
  }

  lemma {:induction false} MembersOrdered(libc: Libc, s: Bytes, acc: seq<Member>)
    requires Ordered(Object(acc))
    ensures var r := R.ParseMembers(libc, BUILD, s, acc); r.val.Some? ==> Ordered(r.val.value)
    decreases |s|, 2
  {
    hide R.Parse, R.Expect, R.Key;
    var k := R.Key(s);
    if k.val.Some? {
      ParseOrdered(libc, k.rest);
      var item := R.Parse(libc, BUILD, k.rest);
      if item.val.Some? {
        var acc' := Put(acc, k.val.value, item.val.value);
        PutOrdered(acc, k.val.value, item.val.value);
        var c := R.Expect(item.rest, COMMA);
        if c.val.Some? {
          MembersOrdered(libc, c.rest, acc');
        }
      }
    }
  }

  lemma PutOrdered(acc: seq<Member>, key: Bytes, v: Value)
    requires Ordered(Object(acc)) && Ordered(v)
    ensures Ordered(Object(Put(acc, key, v)))
  {
    PutKeepsOrder(acc, key, v);
    var ms := Put(acc, key, v);
    forall i | 0 <= i < |ms| ensures Ordered(ms[i].val) {
      PutKeys(acc, key, v, ms[i]);
    }
  }
}
