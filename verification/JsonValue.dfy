/** `picojson::value`, and the two C library conversions it relies on. */
module JsonValue {
  import opened Text

  // The punctuation of its texts.
  const QUOTE: byte := 34
  const BACKSLASH: byte := 92
  const COMMA: byte := 44
  const COLON: byte := 58
  const OPEN_BRACKET: byte := 91
  const CLOSE_BRACKET: byte := 93
  const OPEN_BRACE: byte := 123
  const CLOSE_BRACE: byte := 125

  datatype Value =
    | Null
    | Bool(b: bool)
    | Number(r: real)
    | String(s: Bytes)
    | Array(elems: seq<Value>)
    | Object(members: seq<Member>)

  /** One entry of the `std::map` behind an object; the map is the key-ordered list of its entries. */
  datatype Member = Member(key: Bytes, val: Value)

  /** `strtod`, reduced to its answer when it consumes the whole text, and `%.17g`. */
  datatype Libc = Libc(strtod: Bytes -> Option<real>, g17: real -> Bytes)

  /** `std::string` order: byte by byte, a proper prefix first. */
  predicate Less(a: Bytes, b: Bytes) {
    b != [] && (a == [] || a[0] < b[0] || (a[0] == b[0] && Less(a[1..], b[1..])))
  }

  lemma {:induction false} LessTotal(a: Bytes, b: Bytes)
    ensures Less(a, b) || a == b || Less(b, a)
  {
    if a != [] && b != [] && a[0] == b[0] {
      LessTotal(a[1..], b[1..]);
      if a[1..] == b[1..] {
        assert a == [a[0]] + a[1..] && b == [b[0]] + b[1..];
      }
    }
  }

  lemma {:induction false} LessIrreflexive(a: Bytes)
    ensures !Less(a, a)
  {
    if a != [] {
      LessIrreflexive(a[1..]);
    }
  }

  lemma {:induction false} LessTransitive(a: Bytes, b: Bytes, c: Bytes)
    requires Less(a, b) && Less(b, c)
    ensures Less(a, c)
  {
    if a != [] && a[0] == b[0] == c[0] {
      LessTransitive(a[1..], b[1..], c[1..]);
    }
  }

  predicate Sorted(ms: seq<Member>) {
    forall i, j :: 0 <= i < j < |ms| ==> Less(ms[i].key, ms[j].key)
  }

  /** `o[key] = v` on a `std::map`: replace the entry, or insert it at its place. */
  function Put(ms: seq<Member>, key: Bytes, v: Value): seq<Member> {
    if ms == [] || Less(key, ms[0].key) then [Member(key, v)] + ms
    else if key == ms[0].key then [Member(key, v)] + ms[1..]
    else [ms[0]] + Put(ms[1..], key, v)
  }

  /** `o.find(key)`. */
  function Find(ms: seq<Member>, key: Bytes): Option<Value> {
    if ms == [] then None
    else if ms[0].key == key then Some(ms[0].val)
    else Find(ms[1..], key)
  }

  lemma {:induction false} PutKeys(ms: seq<Member>, key: Bytes, v: Value, m: Member)
    requires m in Put(ms, key, v)
    ensures m == Member(key, v) || m in ms
  {
    if ms != [] && !Less(key, ms[0].key) && key != ms[0].key && m != ms[0] {
      PutKeys(ms[1..], key, v, m);
    }
  }

  lemma {:induction false} PutKeepsOrder(ms: seq<Member>, key: Bytes, v: Value)
    requires Sorted(ms)
    ensures Sorted(Put(ms, key, v))
  {
    if ms == [] {
    } else if Less(key, ms[0].key) {
      forall j | 0 <= j < |ms| ensures Less(key, ms[j].key) {
        if j > 0 {
          LessTransitive(key, ms[0].key, ms[j].key);
        }
      }
    } else if key != ms[0].key {
      LessTotal(key, ms[0].key);
      var rest := Put(ms[1..], key, v);
      PutKeepsOrder(ms[1..], key, v);
      forall j | 0 <= j < |rest| ensures Less(ms[0].key, rest[j].key) {
        PutKeys(ms[1..], key, v, rest[j]);
      }
    }
  }

  /** A write is seen under its own key and under no other. */
  lemma {:induction false} FindPut(ms: seq<Member>, key: Bytes, v: Value, other: Bytes)
    requires Sorted(ms)
    ensures Find(Put(ms, key, v), other) == if other == key then Some(v) else Find(ms, other)
  {
    if ms != [] && !Less(key, ms[0].key) && key != ms[0].key {
      FindPut(ms[1..], key, v, other);
      assert ([ms[0]] + Put(ms[1..], key, v))[1..] == Put(ms[1..], key, v);
    } else if ms != [] && key == ms[0].key {
      assert ([Member(key, v)] + ms[1..])[1..] == ms[1..];
    } else {
      assert ([Member(key, v)] + ms)[1..] == ms;
    }
  }

  /** Writing above every key appends. */
  lemma {:induction false} PutLast(ms: seq<Member>, key: Bytes, v: Value)
    requires forall i :: 0 <= i < |ms| ==> Less(ms[i].key, key)
    ensures Put(ms, key, v) == ms + [Member(key, v)]
  {
    if ms != [] {
      if Less(key, ms[0].key) {
        LessTransitive(key, ms[0].key, key);
      }
      LessIrreflexive(key);
      PutLast(ms[1..], key, v);
      assert ms == [ms[0]] + ms[1..];
    }
  }

  /** Every object in `v` is ordered by key, as a `std::map` always is. */
  predicate Ordered(v: Value) {
    match v
    case Array(elems) => forall i :: 0 <= i < |elems| ==> Ordered(elems[i])
    case Object(members) =>
      Sorted(members) && forall i :: 0 <= i < |members| ==> Ordered(members[i].val)
    case _ => true
  }

  const TWO53 := 0x20_0000_0000_0000

  /** `to_str` on a number: `%.f` for integers below 2^53 in magnitude, else `%.17g`. */
  function NumberText(libc: Libc, r: real): Bytes {
    if r == r.Floor as real && -TWO53 < r.Floor < TWO53 then Decimal(r.Floor) else libc.g17(r)
  }
}
