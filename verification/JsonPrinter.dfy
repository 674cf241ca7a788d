/** `serialize_str` and `value::serialize`: the text as a function, and the code that writes it. */
module JsonPrinter {
  import opened Text
  import opened JsonValue

  function HexDigit(n: int): (b: byte)
    requires 0 <= n < 16
  {
    if n < 10 then 48 + n else 87 + n
  }

  /** One byte of a string literal; the last two hex digits of `\u00xx` are lower case. */
  function EscapeByte(b: byte): (e: Bytes)
    ensures |e| >= 1
  {
    if b == 34 then [92, 34]
    else if b == 92 then [92, 92]
    else if b == 47 then [92, 47]
    else if b == 8 then [92, 98]
    else if b == 12 then [92, 102]
    else if b == 10 then [92, 110]
    else if b == 13 then [92, 114]
    else if b == 9 then [92, 116]
    else if b < 32 || b == 127 then [92, 117, 48, 48, HexDigit(b / 16), HexDigit(b % 16)]
    else [b]
  }

  function Escape(s: Bytes): Bytes {
    if s == [] then [] else EscapeByte(s[0]) + Escape(s[1..])
  }

  function Quoted(s: Bytes): Bytes {
    [QUOTE] + Escape(s) + [QUOTE]
  }

  const NULL: Bytes := [110, 117, 108, 108]

  /** The text of a value. */
  function Serialize(libc: Libc, v: Value): Bytes
    decreases v, 1
  {
    match v
    case Null => NULL
    case Bool(b) => if b then TRUE else FALSE
    case Number(r) => NumberText(libc, r)
    case String(s) => Quoted(s)
    case Array(elems) => [OPEN_BRACKET] + SerializeElems(libc, elems) + [CLOSE_BRACKET]
    case Object(members) => [OPEN_BRACE] + SerializeMembers(libc, members) + [CLOSE_BRACE]
  }

  function SerializeElems(libc: Libc, elems: seq<Value>): Bytes
    decreases elems, 0
  {
    if elems == [] then []
    else Serialize(libc, elems[0])
         + if |elems| == 1 then [] else [COMMA] + SerializeElems(libc, elems[1..])
  }

  function SerializeMembers(libc: Libc, members: seq<Member>): Bytes
    decreases members, 0
  {
    if members == [] then []
    else Quoted(members[0].key) + [COLON] + Serialize(libc, members[0].val)
         + if |members| == 1 then [] else [COMMA] + SerializeMembers(libc, members[1..])
  }

  /** The output iterator: a `std::back_inserter` on a string. */
  class Output {
    var text: Bytes

    constructor ()
      ensures text == []
    {
      text := [];
    }

    method Copy(s: Bytes)
      modifies this
      ensures text == old(text) + s
    {
      text := text + s;
    }

    method SerializeStr(s: Bytes)
      modifies this
      ensures text == old(text) + Quoted(s)
    {
      hide EscapeByte;
      Copy([QUOTE]);
      ghost var start := text;
      for i := 0 to |s|
        invariant text + Escape(s[i..]) == start + Escape(s)
      {
        assert s[i..][1..] == s[i + 1..];
        Assoc(text, EscapeByte(s[i]), Escape(s[i + 1..]));
        Copy(EscapeByte(s[i]));
      }
      assert text == start + Escape(s);
      Copy([QUOTE]);
    }

    method SerializeValue(libc: Libc, v: Value)
      modifies this
      ensures text == old(text) + Serialize(libc, v)
      decreases v, 1
    {
      match v
      case String(s) => SerializeStr(s);
      case Array(elems) => SerializeArray(libc, elems);
      case Object(members) => SerializeObject(libc, members);
      case _ => Copy(Serialize(libc, v));
    }

    method SerializeArray(libc: Libc, elems: seq<Value>)
      modifies this
      ensures text == old(text) + ([OPEN_BRACKET] + SerializeElems(libc, elems) + [CLOSE_BRACKET])
      decreases elems, 0
    {
      hide Serialize, SerializeElems;
      Copy([OPEN_BRACKET]);
      ghost var start := text;
      ElemsAll(libc, elems);
      for i := 0 to |elems|
        invariant text + ElemsFrom(libc, elems, i) == start + SerializeElems(libc, elems)
      {
        ElemsStep(libc, elems, i, text);
        if i != 0 {
          Copy([COMMA]);
        }
        SerializeValue(libc, elems[i]);
      }
      assert text == start + SerializeElems(libc, elems);
      Copy([CLOSE_BRACKET]);
    }

    method SerializeObject(libc: Libc, members: seq<Member>)
      modifies this
      ensures text == old(text) + ([OPEN_BRACE] + SerializeMembers(libc, members) + [CLOSE_BRACE])
      decreases members, 0
    {
      hide Serialize, SerializeMembers, Quoted;
      Copy([OPEN_BRACE]);
      ghost var start := text;
      MembersAll(libc, members);
      for i := 0 to |members|
        invariant text + MembersFrom(libc, members, i) == start + SerializeMembers(libc, members)
      {
        MembersStep(libc, members, i, text);
        if i != 0 {
          Copy([COMMA]);
        }
        SerializeStr(members[i].key);
        Copy([COLON]);
        SerializeValue(libc, members[i].val);
      }
      assert text == start + SerializeMembers(libc, members);
      Copy([CLOSE_BRACE]);
    }
  }

  /** What remains to be written once the first `i` elements are out. */
  function ElemsFrom(libc: Libc, elems: seq<Value>, i: nat): Bytes
    requires i <= |elems|
  {
    if i == |elems| then [] else (if i == 0 then [] else [COMMA]) + SerializeElems(libc, elems[i..])
  }

  lemma ElemsAll(libc: Libc, elems: seq<Value>)
    ensures ElemsFrom(libc, elems, 0) == SerializeElems(libc, elems)
    ensures ElemsFrom(libc, elems, |elems|) == []
  {
    assert elems[0..] == elems;
  }

  lemma ElemsStep(libc: Libc, elems: seq<Value>, i: nat, text: Bytes)
    requires i < |elems|
    ensures var t := if i == 0 then text else text + [COMMA];
      t + Serialize(libc, elems[i]) + ElemsFrom(libc, elems, i + 1) == text + ElemsFrom(libc, elems, i)
  {
    hide Serialize;
    assert elems[i..][1..] == elems[i + 1..] && elems[i..][0] == elems[i];
    var next := ElemsFrom(libc, elems, i + 1);
    var s := Serialize(libc, elems[i]);
    assert SerializeElems(libc, elems[i..]) == s + next;
    if i != 0 {
      Assoc(text, [COMMA], s + next);
      Assoc(text + [COMMA], s, next);
    } else {
      Assoc(text, s, next);
    }
  }

  function MembersFrom(libc: Libc, members: seq<Member>, i: nat): Bytes
    requires i <= |members|
  {
    if i == |members| then [] else (if i == 0 then [] else [COMMA]) + SerializeMembers(libc, members[i..])
  }

  lemma MembersAll(libc: Libc, members: seq<Member>)
    ensures MembersFrom(libc, members, 0) == SerializeMembers(libc, members)
    ensures MembersFrom(libc, members, |members|) == []
  {
    assert members[0..] == members;
  }

  lemma MembersStep(libc: Libc, members: seq<Member>, i: nat, text: Bytes)
    requires i < |members|
    ensures var t := if i == 0 then text else text + [COMMA];
      var m := members[i];
      t + Quoted(m.key) + [COLON] + Serialize(libc, m.val) + MembersFrom(libc, members, i + 1)
      == text + MembersFrom(libc, members, i)
  {
    hide Serialize, Quoted;
    assert members[i..][1..] == members[i + 1..] && members[i..][0] == members[i];
    var m := members[i];
    var next := MembersFrom(libc, members, i + 1);
    var k := Quoted(m.key) + [COLON] + Serialize(libc, m.val);
    var t := if i == 0 then text else text + [COMMA];
    assert SerializeMembers(libc, members[i..]) == k + next by {
      Assoc(Quoted(m.key) + [COLON], Serialize(libc, m.val), next);
    }
    Assoc(t, k, next);
    Assoc(text, [COMMA], k + next);
    Assoc(t, Quoted(m.key), [COLON]);
    Assoc(t, Quoted(m.key) + [COLON], Serialize(libc, m.val));
  }
}
