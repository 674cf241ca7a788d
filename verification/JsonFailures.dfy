/** Where the reader stops in a text it refuses: what was consumed, and what the error message will quote. */
module JsonFailures {
  import opened Text
  import opened JsonValue
  import R = JsonReader
  import Utf8
  import opened JsonLaws
  import opened JsonGrammar
  import opened JsonAccepts

  /** A word is consumed up to the first byte that differs, which is pushed back. */
  lemma {:induction false} MatchFails(s: Bytes, pattern: Bytes, mode: R.Mode) returns (k: nat)
    requires R.Match(s, pattern, mode).val.None?
    ensures k < |pattern| && k <= |s| && s[..k] == pattern[..k] && (k < |s| ==> s[k] != pattern[k])
    ensures R.Match(s, pattern, mode) == R.Result(None, s[k..], R.Peeked(s[k..]))
    decreases pattern
  {
    if s == [] || s[0] != pattern[0] {
      k := 0;
    } else {
      var i := MatchFails(s[1..], pattern[1..], R.Held);
      k := i + 1;
      assert s[..k] == [s[0]] + s[1..][..i] && pattern[..k] == [pattern[0]] + pattern[1..][..i];
      assert s[k..] == s[1..][i..];
    }
  }

  /** Four hex digits are consumed up to the first byte that is none, which is pushed back. */
  lemma QuadHexFails(s: Bytes) returns (k: nat)
    requires R.QuadHex(s).val.None?
    ensures k < 4 && k <= |s| && (forall i :: 0 <= i < k ==> R.HexValue(s[i]) != -1)
    ensures k < |s| ==> R.HexValue(s[k]) == -1
    ensures R.QuadHex(s) == R.Result(None, s[k..], R.Peeked(s[k..]))
  {
    hide R.HexValue;
    k := R.HexSpan(s);
    assert forall i :: 0 <= i < k ==> s[..k][i] == s[i];
  }

  /** Between two surrogates: a byte that is no backslash is pushed back; behind a backslash, a byte that is no u is
      pushed back, and the backslash is lost. */
  lemma SlashUStops(s: Bytes)
    ensures R.SlashU(s) ==
      if |s| >= 2 && s[0] == '\\' as int && s[1] == 'u' as int then R.Result(Some(()), s[2..], R.Held)
      else if s != [] && s[0] == '\\' as int then R.Result(None, s[1..], R.Peeked(s[1..]))
      else R.Result(None, s, R.Peeked(s))
  {
  }

  /** How a string may go wrong at `t`, and what is left then. */
  predicate BadAt(t: Bytes, rest: Bytes, mode: R.Mode) {
    if t == [] then rest == [] && mode == R.Blank
    else if t[0] < ' ' as int then rest == t && mode == R.Pushed
    else
      && t[0] == '\\' as int
      && if t[1..] == [] then rest == [] && mode == R.Blank
         else if t[1] == 'u' as int then R.Codepoint(t[2..]) == R.Result(None, rest, mode)
         else t[1] !in [34, 92, 47, 98, 102, 110, 114, 116] && rest == t[2..] && mode == R.Held
  }

  /** A refused string is legal characters up to the end of the text, a control character, or an escape that is none. */
  lemma {:induction false} StrFails(s: Bytes, acc: Bytes) returns (cs: seq<Char>, t: Bytes)
    requires R.Str(s, true, acc).val.None?
    ensures BodyOk(cs) && s == BodyThen(cs, t)
    ensures BadAt(t, R.Str(s, true, acc).rest, R.Str(s, true, acc).mode)
    decreases |s|
  {
    if Stuck(s) {
      cs, t := [], s;
      StuckBad(s, acc);
    } else {
      NotStuck(s, acc);
      var c, k := NextChar(s);
      CharReads(c, k, acc);
      var more, u := StrFails(k, acc + CharBytes(c));
      hide R.Str, CharThen, CharBytes, CharOk;
      cs, t := [c] + more, u;
    }
  }

  /** No character can be read at the beginning of `s`, nor the closing quote. */
  predicate Stuck(s: Bytes) {
    || s == [] || s[0] < 32
    || (s[0] == BACKSLASH
        && (s[1..] == [] || (R.Unescaped(s[1]) == -1 && (s[1] == 117 ==> R.Codepoint(s[2..]).val.None?))))
  }

  lemma StuckBad(s: Bytes, acc: Bytes)
    requires Stuck(s)
    ensures BadAt(s, R.Str(s, true, acc).rest, R.Str(s, true, acc).mode)
  {
    hide R.Codepoint;
    if s != [] && s[0] == BACKSLASH && s[1..] != [] {
      assert s[1..][0] == s[1] && s[1..][1..] == s[2..];
    }
  }

  lemma NotStuck(s: Bytes, acc: Bytes)
    requires R.Str(s, true, acc).val.None? && !Stuck(s)
    ensures s[0] != QUOTE
  {
  }

  lemma NextChar(s: Bytes) returns (c: Char, k: Bytes)
    requires !Stuck(s) && s[0] != QUOTE
    ensures CharOk(c) && s == CharThen(c, k) && |k| < |s|
  {
    hide Utf8.Encode, Utf8.Combine, R.Codepoint;
    if s[0] == BACKSLASH {
      if R.Unescaped(s[1]) != -1 {
        c, k := Short(s[1]), s[2..];
      } else {
        c, k := UnitsOf(s[2..]);
        assert s == SLASH_U + s[2..];
      }
    } else {
      c, k := Plain(s[0]), s[1..];
    }
  }

  // ---- Arrays and objects ----

  /** Items, each with the comma behind it, in front of `t`. */
  function ItemsBefore(items: seq<Item>, t: Bytes): Bytes {
    if items == [] then t
    else items[0].before + NodeThen(items[0].node, items[0].after + ([COMMA] + ItemsBefore(items[1..], t)))
  }

  /** A value at `t` is refused with this remainder, or it is read and neither a comma nor the closing byte follows. */
  ghost predicate BrokenAt(libc: Libc, t: Bytes, close: byte, rest: Bytes, mode: R.Mode) {
    || R.Parse(libc, DEFAULT, t) == R.Result(None, rest, mode)
    || exists gap, n, k :: Unclosed(libc, t, close, rest, mode, gap, n, k)
  }

  predicate Unclosed(
    libc: Libc, t: Bytes, close: byte, rest: Bytes, mode: R.Mode, gap: Bytes, n: Node, k: Bytes)
  {
    && AllWs(gap) && NodeOk(libc, n) && Ends(n, k) && t == gap + NodeThen(n, k)
    && rest == R.SkipWs(k) && mode == R.Peeked(rest)
    && (rest != [] ==> rest[0] != COMMA && rest[0] != close)
  }

  /** Behind a value, neither a comma nor the closing byte. */
  lemma NeitherFound(s: Bytes, close: byte)
    requires R.Expect(s, COMMA).val.None? && R.Expect(R.Expect(s, COMMA).rest, close).val.None?
    ensures var e := R.Expect(R.Expect(s, COMMA).rest, close);
      && e.rest == R.SkipWs(s) && e.mode == R.Peeked(e.rest)
      && (e.rest != [] ==> e.rest[0] != COMMA && e.rest[0] != close)
  {
    SkipTwice(s);
  }

  /** A refused array is broken at one of its values, and all items before it are legal. */
  lemma {:induction false} ItemsFail(libc: Libc, s: Bytes, acc: seq<Value>) returns (items: seq<Item>, t: Bytes)
    requires R.ParseItems(libc, DEFAULT, s, acc).val.None?
    ensures (forall i :: 0 <= i < |items| ==> ItemOk(libc, items[i])) && s == ItemsBefore(items, t)
    ensures var r := R.ParseItems(libc, DEFAULT, s, acc); BrokenAt(libc, t, CLOSE_BRACKET, r.rest, r.mode)
    decreases |s|
  {
    hide R.Parse, R.Expect, NodeThen, NodeOk, AllWs, Meaning;
    var item := R.Parse(libc, DEFAULT, s);
    if item.val.None? {
      items, t := [], s;
    } else {
      var before, n := NodeFound(libc, s);
      var c := R.Expect(item.rest, COMMA);
      if c.val.Some? {
        var after := ExpectFound(item.rest, COMMA);
        var more, u := ItemsFail(libc, c.rest, acc + [item.val.value]);
        items, t := [Item(before, n, after)] + more, u;
        assert items[1..] == more;
      } else {
        NeitherFound(item.rest, CLOSE_BRACKET);
        items, t := [], s;
        var e := R.Expect(c.rest, CLOSE_BRACKET);
        assert Unclosed(libc, s, CLOSE_BRACKET, e.rest, e.mode, before, n, item.rest);
      }
    }
  }

  function EntriesBefore(entries: seq<Entry>, t: Bytes): Bytes {
    if entries == [] then t
    else
      var e := entries[0];
      KeyThen(e, e.item.before + NodeThen(e.item.node, e.item.after + ([COMMA] + EntriesBefore(entries[1..], t))))
  }

  /** A refused object is broken at one of its keys, with the remainder the key reader leaves, or behind a key at its
      value; and all members before it are legal. */
  lemma {:induction false} EntriesFail(libc: Libc, s: Bytes, acc: seq<Member>)
    returns (entries: seq<Entry>, t: Bytes, atKey: bool, e: Entry, u: Bytes)
    requires R.ParseMembers(libc, DEFAULT, s, acc).val.None?
    ensures (forall i :: 0 <= i < |entries| ==> EntryOk(libc, entries[i])) && s == EntriesBefore(entries, t)
    ensures var r := R.ParseMembers(libc, DEFAULT, s, acc);
      if atKey then R.Key(t) == R.Result(None, r.rest, r.mode)
      else KeyOk(e) && t == KeyThen(e, u) && BrokenAt(libc, u, CLOSE_BRACE, r.rest, r.mode)
    decreases |s|
  {
    hide R.Parse, R.Expect, R.Key, NodeThen, NodeOk, AllWs, KeyThen, KeyOk, Meaning, Put, BodyBytes;
    var key := R.Key(s);
    e := Entry([], [], [], Item([], Node.Word(NullWord), []));
    if key.val.None? {
      entries, t, atKey, u := [], s, true, [];
    } else {
      var item := R.Parse(libc, DEFAULT, key.rest);
      if item.val.None? {
        e := KeyFound(s, e.item);
        entries, t, atKey, u := [], s, false, key.rest;
      } else {
        var before, n := NodeFound(libc, key.rest);
        var c := R.Expect(item.rest, COMMA);
        if c.val.Some? {
          var after := ExpectFound(item.rest, COMMA);
          var first := KeyFound(s, Item(before, n, after));
          var more;
          more, t, atKey, e, u := EntriesFail(libc, c.rest, Put(acc, key.val.value, item.val.value));
          entries := [first] + more;
          assert entries[1..] == more;
        } else {
          NeitherFound(item.rest, CLOSE_BRACE);
          e := KeyFound(s, e.item);
          entries, t, atKey, u := [], s, false, key.rest;
          var x := R.Expect(c.rest, CLOSE_BRACE);
          assert Unclosed(libc, u, CLOSE_BRACE, x.rest, x.mode, before, n, item.rest);
        }
      }
    }
  }

  /** A refused key: no quote behind the white space, a refused string, or no colon behind the key. */
  lemma KeyFails(s: Bytes) returns (cs: seq<Char>, t: Bytes)
    requires R.Key(s).val.None?
    ensures BodyOk(cs)
    ensures var r, q := R.Key(s), R.SkipWs(s);
      if q == [] || q[0] != '"' as int then r == R.Result(None, q, R.Peeked(q))
      else if R.Str(q[1..], true, []).val.None? then q[1..] == BodyThen(cs, t) && BadAt(t, r.rest, r.mode)
      else
        && q[1..] == BodyThen(cs, [QUOTE] + t)
        && r == R.Result(None, R.SkipWs(t), R.Peeked(R.SkipWs(t)))
        && (R.SkipWs(t) != [] ==> R.SkipWs(t)[0] != ':' as int)
  {
    hide R.Str, R.SkipWs, BadAt;
    var q := R.SkipWs(s);
    cs, t := [], [];
    if q != [] && q[0] == QUOTE {
      if R.Str(q[1..], true, []).val.None? {
        cs, t := StrFails(q[1..], []);
      } else {
        cs := BodyFound(q[1..], []);
        t := R.Str(q[1..], true, []).rest;
      }
    }
  }

  /** And a value: where no value can start, nothing is consumed but white space; inside a word, a string or a number
      the reader stops as told above. */
  lemma ValueFails(libc: Libc, s: Bytes)
    requires R.Parse(libc, DEFAULT, s).val.None?
    ensures var r, t := R.Parse(libc, DEFAULT, s), R.SkipWs(s);
      && (t == [] ==> r == R.Result(None, [], R.Blank))
      && (t != [] && t[0] == '"' as int ==> r.rest == R.Str(t[1..], true, []).rest && R.Str(t[1..], true, []).val.None?)
      && (t != [] && t[0] == 't' as int ==> R.Match(t[1..], Ascii("rue"), R.Held) == R.Result(None, r.rest, r.mode))
      && (t != [] && t[0] == 'f' as int ==> R.Match(t[1..], Ascii("alse"), R.Held) == R.Result(None, r.rest, r.mode))
      && (t != [] && t[0] == 'n' as int ==> R.Match(t[1..], Ascii("ull"), R.Held) == R.Result(None, r.rest, r.mode))
  {
    hide R.Str, R.Match, R.ParseArray, R.ParseObject, R.SkipWs;
    assert Ascii("rue") == [114, 117, 101] && Ascii("alse") == [97, 108, 115, 101] && Ascii("ull") == [117, 108, 108];
  }
}
