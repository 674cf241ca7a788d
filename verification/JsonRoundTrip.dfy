/** Parsing a printed value gives the value back: the printer writes one sentence of the grammar for each value,
    the one without white space, and white space does not change what a sentence stands for. */
module JsonRoundTrip {
  import opened Text
  import opened JsonValue
  import P = JsonPrinter
  import R = JsonReader
  import JsonContexts
  import JsonParser
  import opened JsonLaws
  import opened JsonGrammar
  import opened JsonAccepts

  // ---- The printer's sentence for a value ----

  function Printed(b: byte): Char {
    if b == 34 || b == 92 || b == 47 then Short(b)
    else if b == 8 then Short(98)
    else if b == 12 then Short(102)
    else if b == 10 then Short(110)
    else if b == 13 then Short(114)
    else if b == 9 then Short(116)
    else if b < 32 || b == 127 then Unit([48, 48, P.HexDigit(b / 16), P.HexDigit(b % 16)])
    else Plain(b)
  }

  /** The escape chosen for a byte is legal and stands for that byte. */
  lemma PrintedByte(b: byte, k: Bytes)
    ensures CharOk(Printed(b)) && CharBytes(Printed(b)) == [b]
    ensures CharThen(Printed(b), k) == P.EscapeByte(b) + k
  {
    if Printed(b).Unit? {
      R.HexNumberFour([48, 48, P.HexDigit(b / 16), P.HexDigit(b % 16)]);
    }
  }

  function Body(s: Bytes): seq<Char> {
    if s == [] then [] else [Printed(s[0])] + Body(s[1..])
  }

  lemma {:induction false} PrintedBody(s: Bytes, k: Bytes)
    ensures BodyThen(Body(s), k) == P.Escape(s) + k
  {
    if s == [] {
      assert P.Escape(s) + k == k;
    } else {
      hide Printed, CharThen, P.EscapeByte;
      PrintedBody(s[1..], k);
      PrintedByte(s[0], BodyThen(Body(s[1..]), k));
      Assoc(P.EscapeByte(s[0]), P.Escape(s[1..]), k);
      assert Body(s)[1..] == Body(s[1..]);
    }
  }

  /** The printed body is legal and stands for the string. */
  lemma {:induction false} PrintedMeans(s: Bytes)
    ensures BodyOk(Body(s)) && BodyBytes(Body(s)) == s
  {
    if s != [] {
      hide Printed, CharOk, CharBytes;
      PrintedMeans(s[1..]);
      PrintedByte(s[0], []);
      assert Body(s)[1..] == Body(s[1..]);
      assert s == [s[0]] + s[1..];
    }
  }

  lemma PrintedQuoted(s: Bytes, k: Bytes)
    ensures [QUOTE] + BodyThen(Body(s), [QUOTE] + k) == P.Quoted(s) + k
  {
    hide P.Escape, BodyThen;
    PrintedBody(s, [QUOTE] + k);
    Assoc([QUOTE] + P.Escape(s), [QUOTE], k);
    Assoc([QUOTE], P.Escape(s), [QUOTE] + k);
  }

  function Canonical(libc: Libc, v: Value): Node
    decreases v
  {
    match v
    case Null => Node.Word(NullWord)
    case Bool(b) => Node.Word(if b then TrueWord else FalseWord)
    case Number(r) => Num(NumberText(libc, r))
    case String(s) => Lit(Body(s))
    case Array(elems) => Arr(CanonicalItems(libc, elems), [])
    case Object(members) => Obj(CanonicalEntries(libc, members), [])
  }

  function CanonicalItems(libc: Libc, elems: seq<Value>): (items: seq<Item>)
    ensures |items| == |elems|
    decreases elems
  {
    if elems == [] then [] else [Item([], Canonical(libc, elems[0]), [])] + CanonicalItems(libc, elems[1..])
  }

  function CanonicalEntries(libc: Libc, members: seq<Member>): (entries: seq<Entry>)
    ensures |entries| == |members|
    decreases members
  {
    if members == [] then []
    else
      var m := members[0];
      [Entry([], Body(m.key), [], Item([], Canonical(libc, m.val), []))] + CanonicalEntries(libc, members[1..])
  }

  /** What `serialize` writes is that sentence. */
  lemma {:induction false} SerializeIsCanonical(libc: Libc, v: Value, k: Bytes)
    ensures NodeThen(Canonical(libc, v), k) == P.Serialize(libc, v) + k
    decreases v, 1
  {
    match v
    case String(s) => PrintedQuoted(s, k);
    case Array(elems) =>
      var close := [CLOSE_BRACKET] + k;
      assert [] + close == close;
      ItemsCanonical(libc, elems, close);
      Assoc([OPEN_BRACKET] + P.SerializeElems(libc, elems), [CLOSE_BRACKET], k);
      Assoc([OPEN_BRACKET], P.SerializeElems(libc, elems), close);
    case Object(members) =>
      var close := [CLOSE_BRACE] + k;
      assert [] + close == close;
      EntriesCanonical(libc, members, close);
      Assoc([OPEN_BRACE] + P.SerializeMembers(libc, members), [CLOSE_BRACE], k);
      Assoc([OPEN_BRACE], P.SerializeMembers(libc, members), close);
    case _ =>
  }

  lemma {:induction false} ItemsCanonical(libc: Libc, elems: seq<Value>, k: Bytes)
    ensures ItemsThen(CanonicalItems(libc, elems), k) == P.SerializeElems(libc, elems) + k
    decreases elems, 0
  {
    if elems == [] {
      assert P.SerializeElems(libc, elems) + k == k;
    } else {
      hide NodeThen, Canonical, P.Serialize;
      var items := CanonicalItems(libc, elems);
      assert items[1..] == CanonicalItems(libc, elems[1..]);
      ItemsCanonical(libc, elems[1..], k);
      var more := if |elems| == 1 then [] else [COMMA] + P.SerializeElems(libc, elems[1..]);
      var next := if |elems| == 1 then k else [COMMA] + ItemsThen(items[1..], k);
      assert next == more + k;
      assert [] + next == next;
      SerializeIsCanonical(libc, elems[0], next);
      Assoc(P.Serialize(libc, elems[0]), more, k);
      assert forall x: Bytes :: [] + x == x;
    }
  }

  lemma Regroup(q: Bytes, c: Bytes, v: Bytes, more: Bytes, k: Bytes)
    ensures q + (c + (v + (more + k))) == (q + c + v + more) + k
  {
    Assoc(q + c + v, more, k);
    Assoc(q + c, v, more + k);
    Assoc(q, c, v + (more + k));
  }

  lemma MemberCanonical(libc: Libc, m: Member, next: Bytes)
    ensures var e := CanonicalEntries(libc, [m])[0];
      KeyThen(e, e.item.before + NodeThen(e.item.node, e.item.after + next))
      == P.Quoted(m.key) + ([COLON] + (P.Serialize(libc, m.val) + next))
    decreases m, 0
  {
    hide NodeThen, BodyThen, Canonical, Body, P.Serialize, P.Quoted;
    assert forall x: Bytes :: [] + x == x;
    SerializeIsCanonical(libc, m.val, next);
    PrintedQuoted(m.key, [COLON] + (P.Serialize(libc, m.val) + next));
  }

  lemma {:induction false} EntriesCanonical(libc: Libc, members: seq<Member>, k: Bytes)
    ensures EntriesThen(CanonicalEntries(libc, members), k) == P.SerializeMembers(libc, members) + k
    decreases members, 0
  {
    if members == [] {
      assert P.SerializeMembers(libc, members) + k == k;
    } else {
      hide NodeThen, KeyThen, Canonical, Body, P.Serialize, P.Quoted;
      var m := members[0];
      var entries := CanonicalEntries(libc, members);
      assert entries[1..] == CanonicalEntries(libc, members[1..]);
      EntriesCanonical(libc, members[1..], k);
      var more := if |members| == 1 then [] else [COMMA] + P.SerializeMembers(libc, members[1..]);
      var next := if |members| == 1 then k else [COMMA] + EntriesThen(entries[1..], k);
      assert next == more + k;
      MemberCanonical(libc, m, next);
      Regroup(P.Quoted(m.key), [COLON], P.Serialize(libc, m.val), more, k);
    }
  }

  // ---- It stands for the value ----

  lemma NumberMeans(libc: Libc, r: real)
    requires NumberReads(libc, r)
    ensures NumOk(libc, NumberText(libc, r)) && libc.strtod(NumberText(libc, r)) == Some(r)
  {
  }

  lemma {:induction false} CanonicalMeans(libc: Libc, v: Value)
    requires Faithful(libc, v)
    ensures NodeOk(libc, Canonical(libc, v)) && Meaning(libc, Canonical(libc, v)) == v
    decreases v, 1
  {
    hide NumberText, NumberReads, NumOk, Sorted, ItemOk, EntryOk, Body, BodyOk, BodyBytes, Puts, Meanings;
    match v
    case Number(r) => NumberMeans(libc, r);
    case String(s) => PrintedMeans(s);
    case Array(elems) => ItemsMean(libc, elems);
    case Object(members) =>
      assert [] + members == members;
      EntriesMean(libc, [], members);
    case _ =>
  }

  lemma {:induction false} ItemsMean(libc: Libc, elems: seq<Value>)
    requires forall i :: 0 <= i < |elems| ==> Faithful(libc, elems[i])
    ensures var items := CanonicalItems(libc, elems);
      (forall i :: 0 <= i < |items| ==> ItemOk(libc, items[i])) && Meanings(libc, items) == elems
    decreases elems, 0
  {
    if elems != [] {
      hide Canonical, Faithful, NodeOk, Meaning;
      CanonicalMeans(libc, elems[0]);
      ItemsMean(libc, elems[1..]);
      var items := CanonicalItems(libc, elems);
      assert items[1..] == CanonicalItems(libc, elems[1..]);
      assert elems == [elems[0]] + elems[1..];
    }
  }

  lemma {:induction false} EntriesMean(libc: Libc, acc: seq<Member>, members: seq<Member>)
    requires Sorted(acc + members) && forall i :: 0 <= i < |members| ==> Faithful(libc, members[i].val)
    ensures var entries := CanonicalEntries(libc, members);
      (forall i :: 0 <= i < |entries| ==> EntryOk(libc, entries[i])) && Puts(libc, acc, entries) == acc + members
    decreases members, 0
  {
    if members == [] {
      assert acc + members == acc;
    } else {
      hide Canonical, Faithful, NodeOk, Meaning, Put, Sorted, Body, BodyOk, BodyBytes;
      var m := members[0];
      AppendsLast(acc, members);
      PrintedMeans(m.key);
      CanonicalMeans(libc, m.val);
      EntriesMean(libc, acc + [m], members[1..]);
      var entries := CanonicalEntries(libc, members);
      assert entries[1..] == CanonicalEntries(libc, members[1..]);
      assert m == Member(m.key, m.val);
    }
  }

  lemma AppendsLast(acc: seq<Member>, members: seq<Member>)
    requires Sorted(acc + members) && members != []
    ensures Put(acc, members[0].key, members[0].val) == acc + [members[0]]
    ensures Sorted(acc + [members[0]] + members[1..]) && acc + [members[0]] + members[1..] == acc + members
  {
    var m := members[0];
    forall i | 0 <= i < |acc| ensures Less(acc[i].key, m.key) {
      assert (acc + members)[i] == acc[i] && (acc + members)[|acc|] == m;
    }
    PutLast(acc, m.key, m.val);
    assert acc + [m] + members[1..] == acc + members;
  }

  // ---- White space ----

  /** The sentence with all white space taken out. */
  function Unspaced(n: Node): Node
    decreases n
  {
    match n
    case Arr(items, _) => Arr(UnspacedItems(items), [])
    case Obj(entries, _) => Obj(UnspacedEntries(entries), [])
    case _ => n
  }

  function UnspacedItems(items: seq<Item>): seq<Item>
    decreases items
  {
    if items == [] then [] else [Item([], Unspaced(items[0].node), [])] + UnspacedItems(items[1..])
  }

  function UnspacedEntries(entries: seq<Entry>): seq<Entry>
    decreases entries
  {
    if entries == [] then []
    else
      var e := entries[0];
      [Entry([], e.key, [], Item([], Unspaced(e.item.node), []))] + UnspacedEntries(entries[1..])
  }

  lemma {:induction false} UnspacedMeans(libc: Libc, n: Node)
    ensures Meaning(libc, Unspaced(n)) == Meaning(libc, n)
    decreases n, 1
  {
    match n
    case Arr(items, _) => UnspacedItemsMean(libc, items);
    case Obj(entries, _) => UnspacedEntriesMean(libc, [], entries);
    case _ =>
  }

  lemma {:induction false} UnspacedItemsMean(libc: Libc, items: seq<Item>)
    ensures Meanings(libc, UnspacedItems(items)) == Meanings(libc, items)
    decreases items, 0
  {
    if items != [] {
      UnspacedMeans(libc, items[0].node);
      UnspacedItemsMean(libc, items[1..]);
      assert UnspacedItems(items)[1..] == UnspacedItems(items[1..]);
    }
  }

  lemma {:induction false} UnspacedEntriesMean(libc: Libc, acc: seq<Member>, entries: seq<Entry>)
    ensures Puts(libc, acc, UnspacedEntries(entries)) == Puts(libc, acc, entries)
    decreases entries, 0
  {
    if entries != [] {
      hide Put, BodyBytes;
      var e := entries[0];
      UnspacedMeans(libc, e.item.node);
      UnspacedEntriesMean(libc, Put(acc, BodyBytes(e.key), Meaning(libc, e.item.node)), entries[1..]);
      assert UnspacedEntries(entries)[1..] == UnspacedEntries(entries[1..]);
    }
  }

  // ---- The main results ----

  predicate Stops(v: Value, tail: Bytes) {
    v.Number? ==> tail == [] || !R.IsNumChar(tail[0])
  }

  function ModeAfter(v: Value, tail: Bytes): R.Mode {
    if v.Number? then R.Peeked(tail) else R.Held
  }

  /** A text that differs from what the printer writes in white space only. */
  ghost predicate SpacedText(libc: Libc, v: Value, gap: Bytes, n: Node) {
    AllWs(gap) && NodeOk(libc, n) && Unspaced(n) == Canonical(libc, v)
  }

  /** Round trip with any white space between the tokens and any bytes behind a value, as long as they do
      not carry a final number on. The bytes behind are left unread, all of them. */
  lemma SpacedRoundTrip(libc: Libc, v: Value, gap: Bytes, n: Node, tail: Bytes)
    requires Faithful(libc, v) && SpacedText(libc, v, gap, n) && Stops(v, tail)
    ensures R.Parse(libc, R.DefaultContext, gap + NodeThen(n, tail)) == R.Result(Some(v), tail, ModeAfter(v, tail))
  {
    hide R.Parse, NodeThen, NodeOk, Faithful, Meaning;
    CanonicalMeans(libc, v);
    UnspacedMeans(libc, n);
    assert n.Num? == Canonical(libc, v).Num?;
    SentenceReads(libc, gap + NodeThen(n, tail), gap, n, tail);
  }

  /** Round trip of the printer's own text. */
  lemma RoundTrip(libc: Libc, v: Value, tail: Bytes)
    requires Faithful(libc, v) && Stops(v, tail)
    ensures R.Parse(libc, R.DefaultContext, P.Serialize(libc, v) + tail) == R.Result(Some(v), tail, ModeAfter(v, tail))
  {
    hide R.Parse, NodeThen, NodeOk, Faithful, Meaning, P.Serialize;
    CanonicalMeans(libc, v);
    SerializeIsCanonical(libc, v, tail);
    var s := P.Serialize(libc, v) + tail;
    assert [] + s == s;
    SentenceReads(libc, s, [], Canonical(libc, v), tail);
  }

  /** Different values have different texts; no text is the beginning of another, numbers aside. */
  lemma SerializePrefixFree(libc: Libc, v: Value, w: Value, tail: Bytes)
    requires Faithful(libc, v) && Faithful(libc, w) && Stops(v, tail)
    requires P.Serialize(libc, v) + tail == P.Serialize(libc, w)
    ensures v == w && tail == []
  {
    hide R.Parse, P.Serialize, Faithful;
    RoundTrip(libc, v, tail);
    assert P.Serialize(libc, w) + [] == P.Serialize(libc, w);
    RoundTrip(libc, w, []);
  }

  lemma SerializeInjective(libc: Libc, v: Value, w: Value)
    requires Faithful(libc, v) && Faithful(libc, w) && P.Serialize(libc, v) == P.Serialize(libc, w)
    ensures v == w
  {
    assert P.Serialize(libc, v) + [] == P.Serialize(libc, v);
    SerializePrefixFree(libc, v, w, []);
  }

  /** For every accepted text: the iterator the entry point returns is where the value ended, except behind a
      number with more text after it. There it is one byte too far, since the push-back is forgotten. */
  lemma IteratorExactIff(libc: Libc, s: Bytes)
    requires R.Parse(libc, R.DefaultContext, s).val.Some?
    ensures var r := R.Parse(libc, R.DefaultContext, s);
      && (JsonParser.IteratorAfter(r, s) == |s| - |r.rest| <==> !(r.val.value.Number? && r.rest != []))
      && (r.val.value.Number? && r.rest != [] ==> JsonParser.IteratorAfter(r, s) == |s| - |r.rest| + 1)
  {
    hide R.Parse, NodeThen;
    var gap, n := NodeFound(libc, s);
  }

  /** The condition on the text alone, which a caller can look at beforehand: the iterator is right unless the text,
      behind its white space, starts like a number and has more bytes than the number's. */
  lemma IteratorOnText(libc: Libc, s: Bytes)
    requires R.Parse(libc, R.DefaultContext, s).val.Some?
    ensures var r := R.Parse(libc, R.DefaultContext, s);
      var t := R.SkipWs(s);
      && t != []
      && (JsonParser.IteratorAfter(r, s) == |s| - |r.rest| <==>
            !((IsDigit(t[0]) || t[0] == MINUS) && R.NumSpan(t) < |t|))
  {
    hide R.Parse, NodeThen, NodeOk, R.SkipWs, R.NumSpan;
    IteratorExactIff(libc, s);
    var n := TokenFound(libc, s);
    StartsLikeNumber(libc, n, R.Parse(libc, R.DefaultContext, s).rest);
  }

  /** The first byte tells whether a sentence is a number, and the number bytes then tell how long it is. */
  lemma StartsLikeNumber(libc: Libc, n: Node, k: Bytes)
    requires NodeOk(libc, n) && Ends(n, k)
    ensures var t := NodeThen(n, k);
      && t != []
      && (n.Num? <==> IsDigit(t[0]) || t[0] == MINUS)
      && (n.Num? <==> Meaning(libc, n).Number?)
      && (n.Num? ==> |t| - R.NumSpan(t) == |k|)
  {
    if n.Num? {
      NumSpanIs(n.text, k);
      assert (n.text + k)[0] == n.text[0];
    }
  }

  /** The printed text of a value, with anything behind it that does not carry a number on. */
  lemma IteratorBehindPrinted(libc: Libc, v: Value, tail: Bytes)
    requires Faithful(libc, v) && Stops(v, tail)
    ensures var data := P.Serialize(libc, v) + tail;
      var r := R.Parse(libc, R.DefaultContext, data);
      && r.val == Some(v)
      && (JsonParser.IteratorAfter(r, data) == |P.Serialize(libc, v)| <==> !(v.Number? && tail != []))
  {
    hide R.Parse, P.Serialize, Faithful;
    RoundTrip(libc, v, tail);
    IteratorExactIff(libc, P.Serialize(libc, v) + tail);
  }

  /** The text `1]` is one for which it fails: the value is the first byte, the iterator is the end. */
  lemma IteratorTooFar(libc: Libc)
    requires libc.strtod([49]) == Some(1.0)
    ensures var r := R.Parse(libc, R.DefaultContext, [49, CLOSE_BRACKET]);
      && r.val == Some(Number(1.0)) && r.rest == [CLOSE_BRACKET]
      && JsonParser.IteratorAfter(r, [49, CLOSE_BRACKET]) == 2
  {
    hide R.Parse;
    assert [49] + [CLOSE_BRACKET] == [49, CLOSE_BRACKET];
    NumReads(libc, [49], [CLOSE_BRACKET]);
  }

  /** Every number in `v` survives printing. */
  predicate NumbersRead(libc: Libc, v: Value) {
    match v
    case Number(r) => NumberReads(libc, r)
    case Array(elems) => forall i :: 0 <= i < |elems| ==> NumbersRead(libc, elems[i])
    case Object(members) => forall i :: 0 <= i < |members| ==> NumbersRead(libc, members[i].val)
    case _ => true
  }

  lemma {:induction false} OrderedFaithful(libc: Libc, v: Value)
    requires Ordered(v) && NumbersRead(libc, v)
    ensures Faithful(libc, v)
  {
    match v
    case Array(elems) =>
      forall i | 0 <= i < |elems| ensures Faithful(libc, elems[i]) {
        OrderedFaithful(libc, elems[i]);
      }
    case Object(members) =>
      forall i | 0 <= i < |members| ensures Faithful(libc, members[i].val) {
        OrderedFaithful(libc, members[i].val);
      }
    case _ =>
  }

  /** The other way round: whatever text was accepted, printing its value and parsing again gives the same
      value, provided its numbers survive printing. */
  lemma Reprint(libc: Libc, s: Bytes)
    requires var r := R.Parse(libc, R.DefaultContext, s); r.val.Some? && NumbersRead(libc, r.val.value)
    ensures var v := R.Parse(libc, R.DefaultContext, s).val.value;
      R.Parse(libc, R.DefaultContext, P.Serialize(libc, v)) == R.Result(Some(v), [], ModeAfter(v, []))
  {
    hide R.Parse, P.Serialize;
    var v := R.Parse(libc, R.DefaultContext, s).val.value;
    JsonContexts.ParseOrdered(libc, s);
    OrderedFaithful(libc, v);
    RoundTrip(libc, v, []);
    assert P.Serialize(libc, v) + [] == P.Serialize(libc, v);
  }

  /** Every number in `v` is an integer below 2^53 in magnitude. */
  predicate SmallIntegers(v: Value) {
    match v
    case Number(r) => r == r.Floor as real && -TWO53 < r.Floor < TWO53
    case Array(elems) => forall i :: 0 <= i < |elems| ==> SmallIntegers(elems[i])
    case Object(members) => forall i :: 0 <= i < |members| ==> SmallIntegers(members[i].val)
    case _ => true
  }

  lemma {:induction false} SmallIntegersRead(libc: Libc, v: Value)
    requires Exact(libc) && SmallIntegers(v)
    ensures NumbersRead(libc, v)
  {
    match v
    case Number(r) => IntegersRead(libc, r.Floor);
    case Array(elems) =>
      forall i | 0 <= i < |elems| ensures NumbersRead(libc, elems[i]) {
        SmallIntegersRead(libc, elems[i]);
      }
    case Object(members) =>
      forall i | 0 <= i < |members| ensures NumbersRead(libc, members[i].val) {
        SmallIntegersRead(libc, members[i].val);
      }
    case _ =>
  }

  /** The round trip for value trees whose numbers are integers: all that is asked of the C library is that
      `strtod` reads those integers exactly. */
  lemma IntegerTrees(libc: Libc, v: Value, gap: Bytes, n: Node, tail: Bytes)
    requires Exact(libc) && Ordered(v) && SmallIntegers(v)
    requires SpacedText(libc, v, gap, n) && Stops(v, tail)
    ensures R.Parse(libc, R.DefaultContext, gap + NodeThen(n, tail)) == R.Result(Some(v), tail, ModeAfter(v, tail))
  {
    SmallIntegersRead(libc, v);
    OrderedFaithful(libc, v);
    SpacedRoundTrip(libc, v, gap, n, tail);
  }
}
