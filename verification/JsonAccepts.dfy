/** The reader accepts exactly the sentences of the grammar, and builds what they stand for. */
module JsonAccepts {
  import opened Text
  import opened JsonValue
  import R = JsonReader
  import Utf8
  import opened JsonLaws
  import opened JsonGrammar

  const DEFAULT := R.DefaultContext

  // ---- Every sentence is read ----

  lemma CharReads(c: Char, k: Bytes, acc: Bytes)
    requires CharOk(c)
    ensures R.Str(CharThen(c, k), true, acc) == R.Str(k, true, acc + CharBytes(c))
  {
    hide R.Codepoint, Utf8.Encode, Utf8.Combine;
    var s := CharThen(c, k);
    match c
    case Plain(b) => assert s[1..] == k;
    case Short(letter) => assert s[1..][1..] == k;
    case Unit(h) =>
      EscapedScalar(h, R.HexNumber(h), k);
      assert s[1..][1..] == h + k;
    case Pair(h, l) =>
      EscapedUnits(h, l, k);
      assert s[1..][1..] == h + (SLASH_U + (l + k));
  }

  lemma {:induction false} BodyReads(cs: seq<Char>, k: Bytes, acc: Bytes)
    requires BodyOk(cs)
    ensures R.Str(BodyThen(cs, [QUOTE] + k), true, acc) == R.Result(Some(acc + BodyBytes(cs)), k, R.Held)
    decreases cs
  {
    if cs == [] {
      assert acc + [] == acc && ([QUOTE] + k)[1..] == k;
    } else {
      hide R.Str, CharThen, CharBytes;
      CharReads(cs[0], BodyThen(cs[1..], [QUOTE] + k), acc);
      BodyReads(cs[1..], k, acc + CharBytes(cs[0]));
      Assoc(acc, CharBytes(cs[0]), BodyBytes(cs[1..]));
    }
  }

  lemma ExpectSees(gap: Bytes, b: byte, k: Bytes)
    requires AllWs(gap) && !R.IsWs(b)
    ensures R.Expect(gap + ([b] + k), b) == R.Result(Some(()), k, R.Held)
  {
    SkipGap(gap, [b] + k);
  }

  lemma ExpectMisses(gap: Bytes, s: Bytes, b: byte)
    requires AllWs(gap) && s != [] && !R.IsWs(s[0]) && s[0] != b
    ensures R.Expect(gap + s, b) == R.Result(None, s, R.Pushed)
  {
    SkipGap(gap, s);
  }

  lemma {:induction false} MatchReads(pattern: Bytes, k: Bytes)
    ensures R.Match(pattern + k, pattern, R.Held) == R.Result(Some(()), k, R.Held)
    decreases pattern
  {
    if pattern == [] {
      assert pattern + k == k;
    } else {
      assert (pattern + k)[1..] == pattern[1..] + k;
      MatchReads(pattern[1..], k);
    }
  }

  lemma WordReads(libc: Libc, w: Word, k: Bytes)
    ensures R.Parse(libc, DEFAULT, WordThen(w, k)) == R.Result(Some(Meaning(libc, Node.Word(w))), k, R.Held)
  {
    hide R.Match;
    MatchReads([117, 108, 108], k);
    MatchReads([114, 117, 101], k);
    MatchReads([97, 108, 115, 101], k);
    assert WordThen(w, k)[1..] == match w
      case NullWord => [117, 108, 108] + k
      case TrueWord => [114, 117, 101] + k
      case FalseWord => [97, 108, 115, 101] + k;
  }

  lemma NumReads(libc: Libc, text: Bytes, k: Bytes)
    requires NumOk(libc, text) && Ends(Num(text), k)
    ensures R.Parse(libc, DEFAULT, text + k) == R.Result(Some(Meaning(libc, Num(text))), k, R.Peeked(k))
  {
    hide R.NumSpan;
    var s := text + k;
    NumSpanIs(text, k);
    assert s[..|text|] == text && s[|text|..] == k && s[0] == text[0];
  }

  lemma LitReads(libc: Libc, body: seq<Char>, k: Bytes)
    requires BodyOk(body)
    ensures R.Parse(libc, DEFAULT, [QUOTE] + BodyThen(body, [QUOTE] + k))
         == R.Result(Some(String(BodyBytes(body))), k, R.Held)
  {
    hide R.Str;
    var rest := BodyThen(body, [QUOTE] + k);
    assert ([QUOTE] + rest)[1..] == rest;
    BodyReads(body, k, []);
    assert [] + BodyBytes(body) == BodyBytes(body);
  }

  /** A value starts with a byte that is neither white space nor punctuation that may stand in its place. */
  lemma NodeStarts(libc: Libc, n: Node, k: Bytes)
    requires NodeOk(libc, n)
    ensures var s := NodeThen(n, k);
      s != [] && !R.IsWs(s[0]) && s[0] != COMMA && s[0] != CLOSE_BRACKET && s[0] != CLOSE_BRACE
  {
  }

  /** Behind a value inside brackets comes white space, a comma or a closing byte. */
  lemma EndsInside(n: Node, gap: Bytes, s: Bytes)
    requires AllWs(gap) && s != [] && !R.IsNumChar(s[0])
    ensures Ends(n, gap + s)
  {
    assert (gap + s)[0] == if gap == [] then s[0] else gap[0];
  }

  lemma ParseAfterGap(libc: Libc, gap: Bytes, s: Bytes)
    requires AllWs(gap) && s != [] && !R.IsWs(s[0])
    ensures R.Parse(libc, DEFAULT, gap + s) == R.Parse(libc, DEFAULT, s)
  {
    SkipGap(gap, s);
    ParseSkips(libc, DEFAULT, gap + s);
  }

  /** Completeness: a sentence is read to its end, whatever follows, and nothing behind it is consumed. */
  lemma {:induction false} NodeReads(libc: Libc, n: Node, k: Bytes)
    requires NodeOk(libc, n) && Ends(n, k)
    ensures R.Parse(libc, DEFAULT, NodeThen(n, k)) == R.Result(Some(Meaning(libc, n)), k, After(n, k))
    decreases n, 1
  {
    hide R.Parse, R.ParseItems, R.ParseMembers, R.Expect;
    match n
    case Word(w) => WordReads(libc, w, k);
    case Num(text) => NumReads(libc, text, k);
    case Lit(body) => LitReads(libc, body, k);
    case Arr(items, gap) =>
      var inner := ItemsThen(items, gap + ([CLOSE_BRACKET] + k));
      Opens(libc, inner);
      if items == [] {
        ExpectSees(gap, CLOSE_BRACKET, k);
      } else {
        assert gap + ([CLOSE_BRACKET] + k) == [CLOSE_BRACKET] + k;
        FirstMissed(libc, items, [CLOSE_BRACKET] + k);
        ItemsSkip(libc, inner);
        ItemsRead(libc, items, k, []);
        assert [] + Meanings(libc, items) == Meanings(libc, items);
      }
    case Obj(entries, gap) =>
      var inner := EntriesThen(entries, gap + ([CLOSE_BRACE] + k));
      Opens(libc, inner);
      if entries == [] {
        ExpectSees(gap, CLOSE_BRACE, k);
      } else {
        assert gap + ([CLOSE_BRACE] + k) == [CLOSE_BRACE] + k;
        KeyMissed(libc, entries, [CLOSE_BRACE] + k);
        MembersSkip(libc, inner);
        EntriesRead(libc, entries, k, []);
      }
  }

  lemma Opens(libc: Libc, inner: Bytes)
    ensures R.Parse(libc, DEFAULT, [OPEN_BRACKET] + inner) == R.ParseArray(libc, DEFAULT, inner)
    ensures R.Parse(libc, DEFAULT, [OPEN_BRACE] + inner) == R.ParseObject(libc, DEFAULT, inner)
  {
    hide R.ParseArray, R.ParseObject;
    assert ([OPEN_BRACKET] + inner)[1..] == inner && ([OPEN_BRACE] + inner)[1..] == inner;
  }

  lemma FirstMissed(libc: Libc, items: seq<Item>, k: Bytes)
    requires items != [] && ItemOk(libc, items[0])
    ensures var s := ItemsThen(items, k); R.Expect(s, CLOSE_BRACKET) == R.Result(None, R.SkipWs(s), R.Pushed)
  {
    hide NodeThen;
    var i := items[0];
    var next := if |items| == 1 then k else [COMMA] + ItemsThen(items[1..], k);
    NodeStarts(libc, i.node, i.after + next);
    SkipGap(i.before, NodeThen(i.node, i.after + next));
  }

  lemma KeyMissed(libc: Libc, entries: seq<Entry>, k: Bytes)
    requires entries != [] && EntryOk(libc, entries[0])
    ensures var s := EntriesThen(entries, k); R.Expect(s, CLOSE_BRACE) == R.Result(None, R.SkipWs(s), R.Pushed)
  {
    hide NodeThen, BodyThen;
    var e := entries[0];
    var next := if |entries| == 1 then k else [COMMA] + EntriesThen(entries[1..], k);
    var v := e.item.before + NodeThen(e.item.node, e.item.after + next);
    SkipGap(e.gap, [QUOTE] + BodyThen(e.key, [QUOTE] + (e.colon + ([COLON] + v))));
  }

  lemma ItemsSkip(libc: Libc, s: Bytes)
    ensures R.ParseItems(libc, DEFAULT, R.SkipWs(s), []) == R.ParseItems(libc, DEFAULT, s, [])
  {
    hide R.Parse, R.Expect;
    ParseSkips(libc, DEFAULT, s);
  }

  lemma MembersSkip(libc: Libc, s: Bytes)
    ensures R.ParseMembers(libc, DEFAULT, R.SkipWs(s), []) == R.ParseMembers(libc, DEFAULT, s, [])
  {
    hide R.Parse, R.Expect, R.Key;
    assert R.Key(R.SkipWs(s)) == R.Key(s) by { KeySkips(s); }
  }

  lemma KeySkips(s: Bytes)
    ensures R.Key(R.SkipWs(s)) == R.Key(s)
  {
    SkipTwice(s);
  }

  /** What follows an item inside brackets. */
  lemma AfterItem(gap: Bytes, close: byte, k: Bytes)
    requires AllWs(gap) && !R.IsWs(close) && close != COMMA
    ensures R.Expect(gap + ([COMMA] + k), COMMA) == R.Result(Some(()), k, R.Held)
    ensures R.Expect(gap + ([close] + k), COMMA) == R.Result(None, [close] + k, R.Pushed)
    ensures R.Expect([close] + k, close) == R.Result(Some(()), k, R.Held)
  {
    ExpectSees(gap, COMMA, k);
    ExpectMisses(gap, [close] + k, COMMA);
    ExpectSees([], close, k);
    assert [] + ([close] + k) == [close] + k;
  }

  lemma ItemReads(libc: Libc, i: Item, next: Bytes)
    requires ItemOk(libc, i) && next != [] && !R.IsNumChar(next[0])
    ensures R.Parse(libc, DEFAULT, i.before + NodeThen(i.node, i.after + next))
         == R.Result(Some(Meaning(libc, i.node)), i.after + next, After(i.node, i.after + next))
    decreases i, 2
  {
    hide R.Parse, NodeThen;
    var s := NodeThen(i.node, i.after + next);
    NodeStarts(libc, i.node, i.after + next);
    ParseAfterGap(libc, i.before, s);
    EndsInside(i.node, i.after, next);
    NodeReads(libc, i.node, i.after + next);
  }

  lemma {:induction false} ItemsRead(libc: Libc, items: seq<Item>, k: Bytes, acc: seq<Value>)
    requires items != [] && forall i :: 0 <= i < |items| ==> ItemOk(libc, items[i])
    ensures R.ParseItems(libc, DEFAULT, ItemsThen(items, [CLOSE_BRACKET] + k), acc)
         == R.Result(Some(Array(acc + Meanings(libc, items))), k, R.Held)
    decreases items, 3
  {
    hide R.Parse, R.Expect, NodeThen, Meaning, ItemOk;
    var i := items[0];
    var close := [CLOSE_BRACKET] + k;
    var more := ItemsThen(items[1..], close);
    var next := if |items| == 1 then close else [COMMA] + more;
    ItemReads(libc, i, next);
    assert AllWs(i.after) by { ItemGaps(libc, i); }
    AfterItem(i.after, CLOSE_BRACKET, k);
    var v := Meaning(libc, i.node);
    if |items| > 1 {
      AfterItem(i.after, CLOSE_BRACKET, more);
      ItemsRead(libc, items[1..], k, acc + [v]);
      Assoc(acc, [v], Meanings(libc, items[1..]));
    } else {
      assert [v] + Meanings(libc, items[1..]) == [v];
    }
  }

  lemma ItemGaps(libc: Libc, i: Item)
    requires ItemOk(libc, i)
    ensures AllWs(i.before) && AllWs(i.after)
  {
  }

  lemma KeyReads(e: Entry, k: Bytes)
    requires KeyOk(e)
    ensures R.Key(KeyThen(e, k)) == R.Result(Some(BodyBytes(e.key)), k, R.Held)
  {
    hide R.Expect, R.Str, BodyThen, AllWs;
    var rest := e.colon + ([COLON] + k);
    ExpectSees(e.gap, QUOTE, BodyThen(e.key, [QUOTE] + rest));
    BodyReads(e.key, rest, []);
    assert [] + BodyBytes(e.key) == BodyBytes(e.key);
    ExpectSees(e.colon, COLON, k);
  }

  lemma {:induction false} EntriesRead(libc: Libc, entries: seq<Entry>, k: Bytes, acc: seq<Member>)
    requires entries != [] && forall i :: 0 <= i < |entries| ==> EntryOk(libc, entries[i])
    ensures R.ParseMembers(libc, DEFAULT, EntriesThen(entries, [CLOSE_BRACE] + k), acc)
         == R.Result(Some(Object(Puts(libc, acc, entries))), k, R.Held)
    decreases entries, 3
  {
    hide R.Parse, R.Expect, R.Key, NodeThen, KeyThen, Meaning, ItemOk, KeyOk, Put, BodyBytes;
    var e := entries[0];
    assert EntryOk(libc, e);
    var close := [CLOSE_BRACE] + k;
    var more := EntriesThen(entries[1..], close);
    var next := if |entries| == 1 then close else [COMMA] + more;
    KeyReads(e, e.item.before + NodeThen(e.item.node, e.item.after + next));
    ItemReads(libc, e.item, next);
    assert AllWs(e.item.after) by { ItemGaps(libc, e.item); }
    AfterItem(e.item.after, CLOSE_BRACE, k);
    var v := Meaning(libc, e.item.node);
    if |entries| > 1 {
      AfterItem(e.item.after, CLOSE_BRACE, more);
      EntriesRead(libc, entries[1..], k, Put(acc, BodyBytes(e.key), v));
    }
  }

  // ---- Nothing else is read ----

  lemma {:induction false} SkipSplit(s: Bytes) returns (gap: Bytes)
    ensures AllWs(gap) && s == gap + R.SkipWs(s)
  {
    if s != [] && R.IsWs(s[0]) {
      gap := SkipSplit(s[1..]);
      assert s == [s[0]] + s[1..];
      gap := [s[0]] + gap;
    } else {
      gap := [];
    }
  }

  lemma ExpectFound(s: Bytes, b: byte) returns (gap: Bytes)
    requires R.Expect(s, b).val.Some?
    ensures AllWs(gap) && s == gap + ([b] + R.Expect(s, b).rest) && R.Expect(s, b).mode == R.Held
  {
    hide R.SkipWs, AllWs;
    gap := SkipSplit(s);
    var t := R.SkipWs(s);
    assert t == [t[0]] + t[1..];
  }

  /** Where the first of two expectations fails, white space is all that was lost. */
  lemma SecondFound(s: Bytes, a: byte, b: byte) returns (gap: Bytes)
    requires R.Expect(s, a).val.None? && R.Expect(R.Expect(s, a).rest, b).val.Some?
    ensures var e := R.Expect(R.Expect(s, a).rest, b); AllWs(gap) && s == gap + ([b] + e.rest) && e.mode == R.Held
  {
    SkipTwice(s);
    gap := ExpectFound(s, b);
  }

  lemma {:induction false} MatchFound(s: Bytes, pattern: Bytes)
    requires R.Match(s, pattern, R.Held).val.Some?
    ensures s == pattern + R.Match(s, pattern, R.Held).rest && R.Match(s, pattern, R.Held).mode == R.Held
    decreases pattern
  {
    if pattern == [] {
      assert pattern + s == s;
    } else {
      MatchFound(s[1..], pattern[1..]);
      hide R.Match;
      var rest := R.Match(s[1..], pattern[1..], R.Held).rest;
      Assoc([pattern[0]], pattern[1..], rest);
      assert pattern == [pattern[0]] + pattern[1..];
      assert s == [s[0]] + s[1..];
    }
  }

  /** The first character of an accepted body. */
  lemma FirstChar(s: Bytes, acc: Bytes) returns (c: Char, k: Bytes)
    requires R.Str(s, true, acc).val.Some? && s[0] != QUOTE
    ensures CharOk(c) && s == CharThen(c, k) && |k| < |s|
  {
    hide Utf8.Encode, Utf8.Combine, R.Codepoint;
    if s[0] == BACKSLASH {
      var t := s[1..];
      if R.Unescaped(t[0]) != -1 {
        c, k := Short(t[0]), t[1..];
      } else {
        CodepointAccepts(t[1..]);
        c, k := UnitsOf(t[1..]);
        assert s == SLASH_U + t[1..];
      }
    } else {
      c, k := Plain(s[0]), s[1..];
    }
  }

  lemma UnitsOf(s: Bytes) returns (c: Char, k: Bytes)
    requires R.Codepoint(s).val.Some?
    ensures CharOk(c) && SLASH_U + s == CharThen(c, k) && |k| < |s|
  {
    CodepointAccepts(s);
    hide R.Codepoint, R.HexNumber, Utf8.IsScalar, Utf8.IsHigh, Utf8.IsLow;
    var h := s[..4];
    if Utf8.IsScalar(R.HexNumber(h)) {
      c, k := Unit(h), s[4..];
      assert s == h + k;
    } else {
      c, k := Pair(h, s[6..10]), s[10..];
      assert s == h + (s[4..6] + (s[6..10] + k));
    }
  }

  lemma {:induction false} BodyFound(s: Bytes, acc: Bytes) returns (cs: seq<Char>)
    requires R.Str(s, true, acc).val.Some?
    ensures var r := R.Str(s, true, acc);
      BodyOk(cs) && s == BodyThen(cs, [QUOTE] + r.rest) && r.val == Some(acc + BodyBytes(cs)) && r.mode == R.Held
    decreases |s|
  {
    assert s != [] by { StrNeeds(acc); }
    if s[0] == QUOTE {
      cs := [];
      assert s == [s[0]] + s[1..] && acc + [] == acc;
    } else {
      var c, k := FirstChar(s, acc);
      CharReads(c, k, acc);
      var more := BodyFound(k, acc + CharBytes(c));
      hide R.Str, CharThen, CharBytes, CharOk;
      cs := [c] + more;
      Assoc(acc, CharBytes(c), BodyBytes(more));
    }
  }

  lemma StrNeeds(acc: Bytes)
    ensures R.Str([], true, acc).val.None?
  {
  }

  lemma NumFound(libc: Libc, s: Bytes) returns (text: Bytes)
    requires s != [] && (IsDigit(s[0]) || s[0] == MINUS) && R.Num(libc, s).val.Some?
    ensures var r := R.Num(libc, s);
      && NumOk(libc, text) && s == text + r.rest && Ends(Num(text), r.rest)
      && Meaning(libc, Num(text)) == Number(r.val.value) && r.mode == R.Peeked(r.rest)
  {
    var n := R.NumSpan(s);
    text := s[..n];
  }

  /** Soundness: whatever is accepted is a sentence behind white space, the value built is what it stands for,
      and what is left is what follows it. */
  lemma {:induction false} NodeFound(libc: Libc, s: Bytes) returns (gap: Bytes, n: Node)
    requires R.Parse(libc, DEFAULT, s).val.Some?
    ensures var r := R.Parse(libc, DEFAULT, s);
      && AllWs(gap) && NodeOk(libc, n) && Ends(n, r.rest) && s == gap + NodeThen(n, r.rest)
      && r.val == Some(Meaning(libc, n)) && r.mode == After(n, r.rest)
    decreases |s|, 1
  {
    gap := SkipSplit(s);
    n := TokenFound(libc, s);
  }

  lemma {:induction false} TokenFound(libc: Libc, s: Bytes) returns (n: Node)
    requires R.Parse(libc, DEFAULT, s).val.Some?
    ensures var r := R.Parse(libc, DEFAULT, s);
      && NodeOk(libc, n) && Ends(n, r.rest) && R.SkipWs(s) == NodeThen(n, r.rest)
      && r.val == Some(Meaning(libc, n)) && r.mode == After(n, r.rest)
    decreases |s|, 0
  {
    hide R.ParseItems, R.ParseMembers, R.Expect, R.Match, R.Str, R.Num;
    var t := R.SkipWs(s);
    assert t == [t[0]] + t[1..];
    if t[0] == 110 {
      MatchFound(t[1..], [117, 108, 108]);
      n := Node.Word(NullWord);
    } else if t[0] == 102 {
      MatchFound(t[1..], [97, 108, 115, 101]);
      n := Node.Word(FalseWord);
    } else if t[0] == 116 {
      MatchFound(t[1..], [114, 117, 101]);
      n := Node.Word(TrueWord);
    } else if t[0] == QUOTE {
      var body := BodyFound(t[1..], []);
      assert [] + BodyBytes(body) == BodyBytes(body);
      n := Lit(body);
    } else if t[0] == OPEN_BRACKET {
      n := ArrayFound(libc, t[1..]);
    } else if t[0] == OPEN_BRACE {
      n := ObjectFound(libc, t[1..]);
    } else {
      var text := NumFound(libc, t);
      n := Num(text);
    }
  }

  lemma {:induction false} ArrayFound(libc: Libc, s: Bytes) returns (n: Node)
    requires R.ParseArray(libc, DEFAULT, s).val.Some?
    ensures var r := R.ParseArray(libc, DEFAULT, s);
      && n.Arr? && NodeOk(libc, n) && [OPEN_BRACKET] + s == NodeThen(n, r.rest)
      && r.val == Some(Meaning(libc, n)) && r.mode == R.Held
    decreases |s|, 4
  {
    hide R.ParseItems, R.Expect;
    if R.Expect(s, CLOSE_BRACKET).val.Some? {
      var gap := ExpectFound(s, CLOSE_BRACKET);
      n := Arr([], gap);
    } else {
      ExpectLost(s, CLOSE_BRACKET);
      ItemsSkip(libc, s);
      var items := ItemsFound(libc, s, []);
      var k := R.ParseArray(libc, DEFAULT, s).rest;
      assert [] + ([CLOSE_BRACKET] + k) == [CLOSE_BRACKET] + k;
      assert [] + Meanings(libc, items) == Meanings(libc, items);
      n := Arr(items, []);
    }
  }

  lemma ExpectLost(s: Bytes, b: byte)
    requires R.Expect(s, b).val.None?
    ensures R.Expect(s, b).rest == R.SkipWs(s)
  {
  }

  lemma {:induction false} ObjectFound(libc: Libc, s: Bytes) returns (n: Node)
    requires R.ParseObject(libc, DEFAULT, s).val.Some?
    ensures var r := R.ParseObject(libc, DEFAULT, s);
      && n.Obj? && NodeOk(libc, n) && [OPEN_BRACE] + s == NodeThen(n, r.rest)
      && r.val == Some(Meaning(libc, n)) && r.mode == R.Held
    decreases |s|, 4
  {
    hide R.ParseMembers, R.Expect;
    if R.Expect(s, CLOSE_BRACE).val.Some? {
      var gap := ExpectFound(s, CLOSE_BRACE);
      n := Obj([], gap);
    } else {
      ExpectLost(s, CLOSE_BRACE);
      MembersSkip(libc, s);
      var entries := EntriesFound(libc, s, []);
      var k := R.ParseObject(libc, DEFAULT, s).rest;
      assert [] + ([CLOSE_BRACE] + k) == [CLOSE_BRACE] + k;
      n := Obj(entries, []);
    }
  }

  lemma {:induction false} ItemsFound(libc: Libc, s: Bytes, acc: seq<Value>) returns (items: seq<Item>)
    requires R.ParseItems(libc, DEFAULT, s, acc).val.Some?
    ensures var r := R.ParseItems(libc, DEFAULT, s, acc);
      && items != [] && (forall i :: 0 <= i < |items| ==> ItemOk(libc, items[i]))
      && s == ItemsThen(items, [CLOSE_BRACKET] + r.rest)
      && r.val == Some(Array(acc + Meanings(libc, items))) && r.mode == R.Held
    decreases |s|, 3
  {
    hide R.Parse, R.Expect, NodeThen, Meaning, NodeOk, AllWs;
    var before, n := NodeFound(libc, s);
    var item := R.Parse(libc, DEFAULT, s);
    var c := R.Expect(item.rest, COMMA);
    var v := Meaning(libc, n);
    if c.val.Some? {
      var after := ExpectFound(item.rest, COMMA);
      var more := ItemsFound(libc, c.rest, acc + [v]);
      items := [Item(before, n, after)] + more;
      Assoc(acc, [v], Meanings(libc, more));
      assert items[1..] == more;
    } else {
      var after := SecondFound(item.rest, COMMA, CLOSE_BRACKET);
      items := [Item(before, n, after)];
      assert Meanings(libc, items) == [v];
    }
  }

  lemma KeyFound(s: Bytes, v: Item) returns (e: Entry)
    requires R.Key(s).val.Some?
    ensures KeyOk(e) && e.item == v && s == KeyThen(e, R.Key(s).rest) && R.Key(s).val == Some(BodyBytes(e.key))
  {
    hide R.Expect, R.Str;
    var q := R.Expect(s, QUOTE);
    var k := R.Str(q.rest, true, []);
    var gap := ExpectFound(s, QUOTE);
    var body := BodyFound(q.rest, []);
    var colon := ExpectFound(k.rest, COLON);
    assert [] + BodyBytes(body) == BodyBytes(body);
    e := Entry(gap, body, colon, v);
  }

  lemma {:induction false} EntriesFound(libc: Libc, s: Bytes, acc: seq<Member>) returns (entries: seq<Entry>)
    requires R.ParseMembers(libc, DEFAULT, s, acc).val.Some?
    ensures var r := R.ParseMembers(libc, DEFAULT, s, acc);
      && entries != [] && (forall i :: 0 <= i < |entries| ==> EntryOk(libc, entries[i]))
      && s == EntriesThen(entries, [CLOSE_BRACE] + r.rest)
      && r.val == Some(Object(Puts(libc, acc, entries))) && r.mode == R.Held
    decreases |s|, 3
  {
    hide R.Parse, R.Expect, R.Key, NodeThen, KeyThen, KeyOk, Meaning, NodeOk, AllWs, Put, BodyBytes;
    var key := R.Key(s);
    var before, n := NodeFound(libc, key.rest);
    var item := R.Parse(libc, DEFAULT, key.rest);
    var c := R.Expect(item.rest, COMMA);
    if c.val.Some? {
      var after := ExpectFound(item.rest, COMMA);
      var e := KeyFound(s, Item(before, n, after));
      var more := EntriesFound(libc, c.rest, Put(acc, key.val.value, item.val.value));
      entries := [e] + more;
      assert entries[1..] == more;
    } else {
      var after := SecondFound(item.rest, COMMA, CLOSE_BRACE);
      var e := KeyFound(s, Item(before, n, after));
      entries := [e];
      assert entries[1..] == [];
    }
  }

  /** The last of the entries whose key stands for `key`. */
  function LastEntry(entries: seq<Entry>, key: Bytes): (e: Option<Entry>)
    ensures e.Some? ==> e.value in entries && BodyBytes(e.value.key) == key
    ensures e.None? ==> forall i :: 0 <= i < |entries| ==> BodyBytes(entries[i].key) != key
  {
    if entries == [] then None
    else
      var later := LastEntry(entries[1..], key);
      if later.Some? then later
      else if BodyBytes(entries[0].key) == key then Some(entries[0])
      else None
  }

  /** Of several members with one key, however each is spelled, the last counts; and nothing is found under a key
      that no member has. */
  lemma {:induction false} LastEntryWins(libc: Libc, acc: seq<Member>, entries: seq<Entry>, key: Bytes)
    requires Sorted(acc)
    ensures Find(Puts(libc, acc, entries), key) ==
      match LastEntry(entries, key)
      case Some(e) => Some(Meaning(libc, e.item.node))
      case None => Find(acc, key)
    decreases entries
  {
    hide Put, Find, BodyBytes, Meaning, Sorted;
    if entries != [] {
      var k, v := BodyBytes(entries[0].key), Meaning(libc, entries[0].item.node);
      PutKeepsOrder(acc, k, v);
      LastEntryWins(libc, Put(acc, k, v), entries[1..], key);
      FindPut(acc, k, v, key);
    }
  }

  /** So for every accepted object text: what is found under a key is the value of the last member of that key. */
  lemma ObjectFinds(libc: Libc, s: Bytes, key: Bytes) returns (entries: seq<Entry>)
    requires R.ParseMembers(libc, DEFAULT, s, []).val.Some?
    ensures var r := R.ParseMembers(libc, DEFAULT, s, []);
      && s == EntriesThen(entries, [CLOSE_BRACE] + r.rest)
      && r.val.value.Object?
      && Find(r.val.value.members, key) ==
         match LastEntry(entries, key)
         case Some(e) => Some(Meaning(libc, e.item.node))
         case None => None
  {
    hide R.ParseMembers, Puts, EntriesThen;
    entries := EntriesFound(libc, s, []);
    LastEntryWins(libc, [], entries, key);
  }

  // ---- The language ----

  /** `s` is white space, then a sentence, then `k`. */
  ghost predicate Sentence(libc: Libc, s: Bytes, gap: Bytes, n: Node, k: Bytes) {
    AllWs(gap) && NodeOk(libc, n) && Ends(n, k) && s == gap + NodeThen(n, k)
  }

  /** The reader decides the language: it accepts a text exactly if a sentence begins it. */
  lemma AcceptsIff(libc: Libc, s: Bytes)
    ensures R.Parse(libc, DEFAULT, s).val.Some? <==> exists gap, n, k :: Sentence(libc, s, gap, n, k)
  {
    hide R.Parse, NodeThen, NodeOk;
    if R.Parse(libc, DEFAULT, s).val.Some? {
      var gap, n := NodeFound(libc, s);
      assert Sentence(libc, s, gap, n, R.Parse(libc, DEFAULT, s).rest);
    }
    forall gap, n, k | Sentence(libc, s, gap, n, k) ensures R.Parse(libc, DEFAULT, s).val.Some? {
      SentenceReads(libc, s, gap, n, k);
    }
  }

  /** And its answer is determined by the grammar: value, bytes left and cursor, whichever way the text is taken
      for a sentence. */
  lemma SentenceReads(libc: Libc, s: Bytes, gap: Bytes, n: Node, k: Bytes)
    requires Sentence(libc, s, gap, n, k)
    ensures R.Parse(libc, DEFAULT, s) == R.Result(Some(Meaning(libc, n)), k, After(n, k))
  {
    hide R.Parse, NodeThen, NodeOk;
    NodeStarts(libc, n, k);
    ParseAfterGap(libc, gap, NodeThen(n, k));
    NodeReads(libc, n, k);
  }
}
