/** The language of the reader as a grammar of its own, with the value each sentence stands for. Every text is
    built in front of the bytes that follow it, so that no text has to be cut apart. */
module JsonGrammar {
  import opened Text
  import opened JsonValue
  import R = JsonReader
  import Utf8
  import opened JsonLaws

  // ---- String literals ----

  /** A raw byte, a one-letter escape, one `\u` escape, or two that form a surrogate pair. */
  datatype Char = Plain(b: byte) | Short(letter: byte) | Unit(h: Bytes) | Pair(h: Bytes, l: Bytes)

  predicate CharOk(c: Char) {
    match c
    case Plain(b) => b >= 32 && b != QUOTE && b != BACKSLASH
    case Short(letter) => R.Unescaped(letter) != -1
    case Unit(h) => IsUnit(h) && Utf8.IsScalar(R.HexNumber(h))
    case Pair(h, l) => IsUnit(h) && IsUnit(l) && Utf8.IsHigh(R.HexNumber(h)) && Utf8.IsLow(R.HexNumber(l))
  }

  predicate BodyOk(cs: seq<Char>) {
    forall i :: 0 <= i < |cs| ==> CharOk(cs[i])
  }

  function CharThen(c: Char, k: Bytes): Bytes {
    match c
    case Plain(b) => [b] + k
    case Short(letter) => [BACKSLASH, letter] + k
    case Unit(h) => SLASH_U + (h + k)
    case Pair(h, l) => SLASH_U + (h + (SLASH_U + (l + k)))
  }

  /** The bytes a character stands for. */
  function CharBytes(c: Char): Bytes {
    if !CharOk(c) then []
    else
      match c
      case Plain(b) => [b]
      case Short(letter) => [R.Unescaped(letter)]
      case Unit(h) => Utf8.Encode(R.HexNumber(h))
      case Pair(h, l) => Utf8.Encode(Utf8.Combine(R.HexNumber(h), R.HexNumber(l)))
  }

  function BodyThen(cs: seq<Char>, k: Bytes): Bytes {
    if cs == [] then k else CharThen(cs[0], BodyThen(cs[1..], k))
  }

  function BodyBytes(cs: seq<Char>): Bytes {
    if cs == [] then [] else CharBytes(cs[0]) + BodyBytes(cs[1..])
  }

  // ---- Values ----

  datatype Word = NullWord | TrueWord | FalseWord

  datatype Node =
    | Word(w: Word)
    | Num(text: Bytes)
    | Lit(body: seq<Char>)
    | Arr(items: seq<Item>, gap: Bytes)      // the gap is that of an empty array or object
    | Obj(entries: seq<Entry>, gap: Bytes)

  /** A value with the white space around it. */
  datatype Item = Item(before: Bytes, node: Node, after: Bytes)

  /** A member: white space, key, white space, colon, value. */
  datatype Entry = Entry(gap: Bytes, key: seq<Char>, colon: Bytes, item: Item)

  function WordThen(w: Word, k: Bytes): Bytes {
    match w
    case NullWord => [110] + ([117, 108, 108] + k)
    case TrueWord => [116] + ([114, 117, 101] + k)
    case FalseWord => [102] + ([97, 108, 115, 101] + k)
  }

  function NodeThen(n: Node, k: Bytes): Bytes {
    match n
    case Word(w) => WordThen(w, k)
    case Num(text) => text + k
    case Lit(body) => [QUOTE] + BodyThen(body, [QUOTE] + k)
    case Arr(items, gap) => [OPEN_BRACKET] + ItemsThen(items, gap + ([CLOSE_BRACKET] + k))
    case Obj(entries, gap) => [OPEN_BRACE] + EntriesThen(entries, gap + ([CLOSE_BRACE] + k))
  }

  function ItemsThen(items: seq<Item>, k: Bytes): Bytes {
    if items == [] then k
    else
      var next := if |items| == 1 then k else [COMMA] + ItemsThen(items[1..], k);
      items[0].before + NodeThen(items[0].node, items[0].after + next)
  }

  function EntriesThen(entries: seq<Entry>, k: Bytes): Bytes {
    if entries == [] then k
    else
      var e := entries[0];
      var next := if |entries| == 1 then k else [COMMA] + EntriesThen(entries[1..], k);
      KeyThen(e, e.item.before + NodeThen(e.item.node, e.item.after + next))
  }

  function KeyThen(e: Entry, k: Bytes): Bytes {
    e.gap + ([QUOTE] + BodyThen(e.key, [QUOTE] + (e.colon + ([COLON] + k))))
  }

  /** White space where it belongs, legal characters, and numbers that `strtod` takes whole. */
  predicate NodeOk(libc: Libc, n: Node) {
    match n
    case Word(_) => true
    case Num(text) => NumOk(libc, text)
    case Lit(body) => BodyOk(body)
    case Arr(items, gap) =>
      AllWs(gap) && (items != [] ==> gap == []) && forall i :: 0 <= i < |items| ==> ItemOk(libc, items[i])
    case Obj(entries, gap) =>
      AllWs(gap) && (entries != [] ==> gap == []) && forall i :: 0 <= i < |entries| ==> EntryOk(libc, entries[i])
  }

  predicate NumOk(libc: Libc, text: Bytes) {
    && text != [] && (IsDigit(text[0]) || text[0] == MINUS)
    && (forall i :: 0 <= i < |text| ==> R.IsNumChar(text[i]))
    && libc.strtod(text).Some?
  }

  predicate ItemOk(libc: Libc, i: Item) {
    AllWs(i.before) && AllWs(i.after) && NodeOk(libc, i.node)
  }

  predicate KeyOk(e: Entry) {
    AllWs(e.gap) && AllWs(e.colon) && BodyOk(e.key)
  }

  predicate EntryOk(libc: Libc, e: Entry) {
    KeyOk(e) && ItemOk(libc, e.item)
  }

  /** What a sentence stands for. A key written twice counts once, with its last value. */
  function Meaning(libc: Libc, n: Node): Value
    decreases n
  {
    match n
    case Word(w) => (match w case NullWord => Null case TrueWord => Bool(true) case FalseWord => Bool(false))
    case Num(text) => (match libc.strtod(text) case Some(r) => Number(r) case None => Null)
    case Lit(body) => String(BodyBytes(body))
    case Arr(items, _) => Array(Meanings(libc, items))
    case Obj(entries, _) => Object(Puts(libc, [], entries))
  }

  function Meanings(libc: Libc, items: seq<Item>): seq<Value>
    decreases items
  {
    if items == [] then [] else [Meaning(libc, items[0].node)] + Meanings(libc, items[1..])
  }

  function Puts(libc: Libc, acc: seq<Member>, entries: seq<Entry>): seq<Member>
    decreases entries
  {
    if entries == [] then acc
    else Puts(libc, Put(acc, BodyBytes(entries[0].key), Meaning(libc, entries[0].item.node)), entries[1..])
  }

  /** Behind a number no byte may follow that would carry it on. */
  predicate Ends(n: Node, k: Bytes) {
    n.Num? ==> k == [] || !R.IsNumChar(k[0])
  }

  /** How the cursor is left: only a number looks one byte ahead. */
  function After(n: Node, k: Bytes): R.Mode {
    if n.Num? then R.Peeked(k) else R.Held
  }

  // ---- Texts are texts ----

  lemma CharAppends(c: Char, k: Bytes, t: Bytes)
    ensures CharThen(c, k + t) == CharThen(c, k) + t
  {
    match c
    case Plain(b) => Assoc([b], k, t);
    case Short(letter) => Assoc([BACKSLASH, letter], k, t);
    case Unit(h) =>
      Assoc(h, k, t);
      Assoc(SLASH_U, h + k, t);
    case Pair(h, l) =>
      Assoc(l, k, t);
      Assoc(SLASH_U, l + k, t);
      Assoc(h, SLASH_U + (l + k), t);
      Assoc(SLASH_U, h + (SLASH_U + (l + k)), t);
  }

  lemma {:induction false} BodyAppends(cs: seq<Char>, k: Bytes, t: Bytes)
    ensures BodyThen(cs, k + t) == BodyThen(cs, k) + t
  {
    hide CharThen;
    if cs != [] {
      BodyAppends(cs[1..], k, t);
      CharAppends(cs[0], BodyThen(cs[1..], k), t);
    }
  }

  /** A sentence in front of more bytes is its own text with those bytes appended. */
  lemma {:induction false} NodeAppends(n: Node, k: Bytes, t: Bytes)
    ensures NodeThen(n, k + t) == NodeThen(n, k) + t
    decreases n, 1
  {
    match n
    case Word(w) =>
      Assoc([117, 108, 108], k, t);
      Assoc([114, 117, 101], k, t);
      Assoc([97, 108, 115, 101], k, t);
      assert forall b: byte, x: Bytes :: [b] + (x + t) == ([b] + x) + t;
    case Num(text) => Assoc(text, k, t);
    case Lit(body) =>
      Assoc([QUOTE], k, t);
      BodyAppends(body, [QUOTE] + k, t);
      Assoc([QUOTE], BodyThen(body, [QUOTE] + k), t);
    case Arr(items, gap) =>
      var close := [CLOSE_BRACKET] + k;
      Assoc([CLOSE_BRACKET], k, t);
      Assoc(gap, close, t);
      ItemsAppend(items, gap + close, t);
      Assoc([OPEN_BRACKET], ItemsThen(items, gap + close), t);
    case Obj(entries, gap) =>
      var close := [CLOSE_BRACE] + k;
      Assoc([CLOSE_BRACE], k, t);
      Assoc(gap, close, t);
      EntriesAppend(entries, gap + close, t);
      Assoc([OPEN_BRACE], EntriesThen(entries, gap + close), t);
  }

  lemma ItemAppends(i: Item, next: Bytes, t: Bytes)
    ensures i.before + NodeThen(i.node, i.after + (next + t)) == (i.before + NodeThen(i.node, i.after + next)) + t
    decreases i, 2
  {
    hide NodeThen;
    Assoc(i.after, next, t);
    NodeAppends(i.node, i.after + next, t);
    Assoc(i.before, NodeThen(i.node, i.after + next), t);
  }

  lemma {:induction false} ItemsAppend(items: seq<Item>, k: Bytes, t: Bytes)
    ensures ItemsThen(items, k + t) == ItemsThen(items, k) + t
    decreases items, 0
  {
    hide NodeThen;
    if items != [] {
      ItemsAppend(items[1..], k, t);
      Assoc([COMMA], ItemsThen(items[1..], k), t);
      ItemAppends(items[0], if |items| == 1 then k else [COMMA] + ItemsThen(items[1..], k), t);
    }
  }

  lemma KeyAppends(e: Entry, k: Bytes, t: Bytes)
    ensures KeyThen(e, k + t) == KeyThen(e, k) + t
  {
    hide BodyThen;
    var rest := e.colon + ([COLON] + k);
    Assoc([COLON], k, t);
    Assoc(e.colon, [COLON] + k, t);
    Assoc([QUOTE], rest, t);
    BodyAppends(e.key, [QUOTE] + rest, t);
    Assoc([QUOTE], BodyThen(e.key, [QUOTE] + rest), t);
    Assoc(e.gap, [QUOTE] + BodyThen(e.key, [QUOTE] + rest), t);
  }

  lemma {:induction false} EntriesAppend(entries: seq<Entry>, k: Bytes, t: Bytes)
    ensures EntriesThen(entries, k + t) == EntriesThen(entries, k) + t
    decreases entries, 0
  {
    hide NodeThen, KeyThen;
    if entries != [] {
      var e := entries[0];
      EntriesAppend(entries[1..], k, t);
      Assoc([COMMA], EntriesThen(entries[1..], k), t);
      var next := if |entries| == 1 then k else [COMMA] + EntriesThen(entries[1..], k);
      ItemAppends(e.item, next, t);
      KeyAppends(e, e.item.before + NodeThen(e.item.node, e.item.after + next), t);
    }
  }
}
