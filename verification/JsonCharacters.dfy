/** The reader and the printer in the characters a user sees, rather than in byte values and tables. */
module JsonCharacters {
  import opened Text
  import opened JsonValue
  import P = JsonPrinter
  import R = JsonReader
  import JsonInput
  import JsonParser
  import Utf8
  import opened JsonLaws
  import opened JsonGrammar
  import opened JsonAccepts

  predicate Among(b: int, s: string) {
    exists i :: 0 <= i < |s| && s[i] as int == b
  }

  // ---- Numbers ----

  datatype Sign = Unsigned | Plus | Minus

  /** A number of the grammar in section 6 of RFC 8259; leading zeros are allowed, too. */
  datatype Form = Form(minus: bool, whole: Bytes, fraction: Option<Bytes>, exponent: Option<Exponent>)

  datatype Exponent = Exponent(capital: bool, sign: Sign, digits: Bytes)

  predicate Digital(s: Bytes) {
    s != [] && forall i :: 0 <= i < |s| ==> '0' as int <= s[i] <= '9' as int
  }

  predicate FormOk(f: Form) {
    && Digital(f.whole)
    && (f.fraction.Some? ==> Digital(f.fraction.value))
    && (f.exponent.Some? ==> Digital(f.exponent.value.digits))
  }

  function SignText(s: Sign): Bytes {
    match s
    case Unsigned => []
    case Plus => Ascii("+")
    case Minus => Ascii("-")
  }

  function FormText(f: Form): Bytes {
    (if f.minus then Ascii("-") else []) + f.whole
    + (if f.fraction.Some? then Ascii(".") + f.fraction.value else [])
    + (if f.exponent.Some? then ExponentText(f.exponent.value) else [])
  }

  function ExponentText(x: Exponent): Bytes {
    (if x.capital then Ascii("E") else Ascii("e")) + SignText(x.sign) + x.digits
  }

  /** The bytes that go on a number. */
  lemma NumberBytes(b: int)
    ensures R.IsNumChar(b) <==> Among(b, "0123456789+-.eE")
  {
    var s := "0123456789+-.eE";
    if '0' as int <= b <= '9' as int {
      assert s[b - 48] as int == b;
    }
    assert s[10] == '+' && s[11] == '-' && s[12] == '.' && s[13] == 'e' && s[14] == 'E';
  }

  predicate AllNumber(s: Bytes) {
    forall i :: 0 <= i < |s| ==> R.IsNumChar(s[i])
  }

  lemma NumberJoins(a: Bytes, b: Bytes)
    requires AllNumber(a) && AllNumber(b)
    ensures AllNumber(a + b)
  {
  }

  lemma FormBytes(f: Form)
    requires FormOk(f)
    ensures AllNumber(FormText(f)) && FormText(f) != []
    ensures IsDigit(FormText(f)[0]) || FormText(f)[0] == MINUS
  {
    var head := (if f.minus then Ascii("-") else []) + f.whole;
    assert AllNumber(head) && head != [] && (IsDigit(head[0]) || head[0] == MINUS);
    var mid := if f.fraction.Some? then Ascii(".") + f.fraction.value else [];
    var tail := if f.exponent.Some? then ExponentText(f.exponent.value) else [];
    assert AllNumber(mid);
    assert AllNumber(tail) by {
      if f.exponent.Some? {
        ExponentBytes(f.exponent.value);
      }
    }
    NumberJoins(head, mid);
    NumberJoins(head + mid, tail);
    assert FormText(f) == head + mid + tail;
    assert (head + mid + tail)[0] == head[0];
  }

  lemma ExponentBytes(x: Exponent)
    requires Digital(x.digits)
    ensures AllNumber(ExponentText(x))
  {
    NumberJoins(if x.capital then Ascii("E") else Ascii("e"), SignText(x.sign));
    NumberJoins((if x.capital then Ascii("E") else Ascii("e")) + SignText(x.sign), x.digits);
  }

  /** Every number of the JSON grammar, with fraction and exponent of either case and sign, is handed to `strtod`
      whole and becomes the value of its answer, if no byte follows that could go on a number. If `strtod` does not
      take it whole, it is refused. */
  lemma NumbersAreRead(libc: Libc, f: Form, k: Bytes)
    requires FormOk(f) && (k == [] || !Among(k[0], "0123456789+-.eE"))
    ensures R.Parse(libc, DEFAULT, FormText(f) + k)
         == match libc.strtod(FormText(f))
            case Some(r) => R.Result(Some(Number(r)), k, R.Peeked(k))
            case None => R.Result(None, k, R.Peeked(k))
  {
    hide FormText;
    var text := FormText(f);
    FormBytes(f);
    if k != [] {
      NumberBytes(k[0]);
    }
    if libc.strtod(text).Some? {
      NumReads(libc, text, k);
    } else {
      var s := text + k;
      NumSpanIs(text, k);
      hide R.NumSpan;
      assert s[..|text|] == text && s[|text|..] == k && s[0] == text[0];
    }
  }

  /** A minus and a digit are the only bytes a number starts with. */
  lemma NumbersStart(libc: Libc, s: Bytes)
    requires s != [] && !Among(s[0], " \t\n\r\"-0123456789[{tfn")
    ensures R.Parse(libc, DEFAULT, s) == R.Result(None, s, R.Pushed)
  {
    FirstBytes(s[0]);
    assert R.SkipWs(s) == s;
  }

  lemma FirstBytes(b: int)
    ensures R.IsWs(b) || b == QUOTE || b == MINUS || IsDigit(b) || b == OPEN_BRACKET || b == OPEN_BRACE
            || b == 't' as int || b == 'f' as int || b == 'n' as int
            ==> Among(b, " \t\n\r\"-0123456789[{tfn")
  {
    var all := " \t\n\r\"-0123456789[{tfn";
    assert all[0] == ' ' && all[1] == '\t' && all[2] == '\n' && all[3] == '\r' && all[4] == '"' && all[5] == '-';
    assert all[16] == '[' && all[17] == '{' && all[18] == 't' && all[19] == 'f' && all[20] == 'n';
    assert IsDigit(b) ==> all[b - 42] as int == b;
  }

  // ---- White space, words, punctuation ----

  lemma WhiteSpace(b: int)
    ensures R.IsWs(b) <==> Among(b, " \t\n\r")
  {
    var s := " \t\n\r";
    assert s[0] == ' ' && s[1] == '\t' && s[2] == '\n' && s[3] == '\r';
  }

  /** The three words, printed and read. */
  lemma Words(libc: Libc, k: Bytes)
    ensures P.Serialize(libc, Null) == Ascii("null")
    ensures P.Serialize(libc, Bool(true)) == Ascii("true") && P.Serialize(libc, Bool(false)) == Ascii("false")
    ensures R.Parse(libc, DEFAULT, Ascii("null") + k) == R.Result(Some(Null), k, R.Held)
    ensures R.Parse(libc, DEFAULT, Ascii("true") + k) == R.Result(Some(Bool(true)), k, R.Held)
    ensures R.Parse(libc, DEFAULT, Ascii("false") + k) == R.Result(Some(Bool(false)), k, R.Held)
  {
    hide R.Parse;
    WordReads(libc, NullWord, k);
    WordReads(libc, TrueWord, k);
    WordReads(libc, FalseWord, k);
    assert Ascii("null") == [110, 117, 108, 108] && Ascii("null") + k == WordThen(NullWord, k);
    assert Ascii("true") == [116, 114, 117, 101] && Ascii("true") + k == WordThen(TrueWord, k);
    assert Ascii("false") == [102, 97, 108, 115, 101] && Ascii("false") + k == WordThen(FalseWord, k);
  }

  /** Brackets, braces, commas, colons and quotes. */
  lemma Punctuation(libc: Libc, v: Value, w: Value, key: Bytes, other: Bytes)
    ensures P.Serialize(libc, Array([])) == Ascii("[]") && P.Serialize(libc, Object([])) == Ascii("{}")
    ensures P.Serialize(libc, Array([v, w]))
         == Ascii("[") + P.Serialize(libc, v) + Ascii(",") + P.Serialize(libc, w) + Ascii("]")
    ensures P.Serialize(libc, String(key)) == Ascii("\"") + P.Escape(key) + Ascii("\"")
    ensures P.Serialize(libc, Object([Member(key, v), Member(other, w)]))
         == Ascii("{") + P.Serialize(libc, String(key)) + Ascii(":") + P.Serialize(libc, v) + Ascii(",")
            + P.Serialize(libc, String(other)) + Ascii(":") + P.Serialize(libc, w) + Ascii("}")
  {
    Marks();
    hide P.SerializeElems, P.SerializeMembers;
    TwoElems(libc, v, w);
    TwoMembers(libc, Member(key, v), Member(other, w));
    Empties(libc);
    Flatten5([OPEN_BRACKET], P.Serialize(libc, v), [COMMA], P.Serialize(libc, w), [CLOSE_BRACKET]);
    Flatten9([OPEN_BRACE], P.Quoted(key), [COLON], P.Serialize(libc, v), [COMMA], P.Quoted(other), [COLON],
             P.Serialize(libc, w), [CLOSE_BRACE]);
  }

  lemma Marks()
    ensures Ascii("[") == [OPEN_BRACKET] && Ascii("]") == [CLOSE_BRACKET] && Ascii(",") == [COMMA]
    ensures Ascii("{") == [OPEN_BRACE] && Ascii("}") == [CLOSE_BRACE] && Ascii(":") == [COLON]
    ensures Ascii("\"") == [QUOTE] && Ascii("[]") == [OPEN_BRACKET, CLOSE_BRACKET]
    ensures Ascii("{}") == [OPEN_BRACE, CLOSE_BRACE]
  {
  }

  lemma Empties(libc: Libc)
    ensures P.Serialize(libc, Array([])) == [OPEN_BRACKET, CLOSE_BRACKET]
    ensures P.Serialize(libc, Object([])) == [OPEN_BRACE, CLOSE_BRACE]
  {
  }

  lemma Flatten5(a: Bytes, b: Bytes, c: Bytes, d: Bytes, e: Bytes)
    ensures a + (b + (c + d)) + e == a + b + c + d + e
  {
    Assoc(b, c, d);
    Assoc(a, b + c, d);
    Assoc(a, b, c);
  }

  lemma Flatten9(a: Bytes, b: Bytes, c: Bytes, d: Bytes, e: Bytes, f: Bytes, g: Bytes, h: Bytes, i: Bytes)
    ensures a + (b + c + d + (e + (f + g + h))) + i == a + b + c + d + e + f + g + h + i
  {
    Flatten5(a, b + c + d, e, f + g + h, i);
    Assoc(a, b + c, d);
    Assoc(a, b, c);
    var x := a + b + c + d + e;
    Assoc(x, f + g, h);
    Assoc(x, f, g);
  }

  lemma TwoElems(libc: Libc, v: Value, w: Value)
    ensures P.SerializeElems(libc, [v, w]) == P.Serialize(libc, v) + ([COMMA] + P.Serialize(libc, w))
  {
    hide P.Serialize;
    assert [v, w][1..] == [w];
    assert P.SerializeElems(libc, [w]) == P.Serialize(libc, w) + [] == P.Serialize(libc, w);
  }

  lemma TwoMembers(libc: Libc, m: Member, n: Member)
    ensures P.SerializeMembers(libc, [m, n])
         == P.Quoted(m.key) + [COLON] + P.Serialize(libc, m.val)
            + ([COMMA] + (P.Quoted(n.key) + [COLON] + P.Serialize(libc, n.val)))
  {
    hide P.Serialize, P.Quoted;
    assert [m, n][1..] == [n];
    var last := P.Quoted(n.key) + [COLON] + P.Serialize(libc, n.val);
    assert P.SerializeMembers(libc, [n]) == last + [] == last;
  }

  // ---- Strings ----

  /** What the letters behind a backslash stand for: quote, backslash, slash, and the five control characters. */
  const LETTERS := "\"\\/bfnrt"
  const MEANINGS: Bytes := [34, 92, 47, 8, 12, 10, 13, 9]

  lemma ShortEscapes(i: nat, s: Bytes, acc: Bytes)
    requires i < 8
    ensures R.Str(Ascii("\\") + ([LETTERS[i] as int] + s), true, acc) == R.Str(s, true, acc + [MEANINGS[i]])
    ensures P.EscapeByte(MEANINGS[i]) == Ascii("\\") + [LETTERS[i] as int]
  {
    hide R.Codepoint;
    var t := [LETTERS[i] as int] + s;
    assert Ascii("\\") == [92];
    assert ([92] + t)[1..] == t && t[1..] == s;
    if i == 0 {} else if i == 1 {} else if i == 2 {} else if i == 3 {} else if i == 4 {} else if i == 5 {}
    else if i == 6 {} else {}
  }

  /** Any other letter but u is refused. */
  lemma OtherLetters(b: byte, s: Bytes, acc: Bytes)
    requires !Among(b, "\"\\/bfnrtu")
    ensures R.Str(Ascii("\\") + ([b] + s), true, acc) == R.Result(None, s, R.Held)
  {
    var all := "\"\\/bfnrtu";
    assert all[0] == '"' && all[1] == '\\' && all[2] == '/' && all[3] == 'b' && all[4] == 'f';
    assert all[5] == 'n' && all[6] == 'r' && all[7] == 't' && all[8] == 'u';
    var t := [b] + s;
    assert Ascii("\\") == [92];
    assert ([92] + t)[1..] == t && t[1..] == s;
  }

  /** A byte stands for itself in a string exactly if it is no control character, quote or backslash. */
  lemma RawBytes(b: byte)
    ensures R.Str([b] + [QUOTE], true, []) == R.Result(Some([b]), [], R.Held)
       <==> b >= ' ' as int && b != '"' as int && b != '\\' as int
  {
    hide R.Codepoint;
    var s := [b] + [QUOTE];
    assert s[1..] == [QUOTE] && [QUOTE][1..] == [];
    assert [] + [b] == [b];
    if b == BACKSLASH {
      assert [QUOTE][0] == QUOTE;
    }
  }

  lemma HexDigits(b: int)
    ensures R.HexValue(b) == -1 <==> !Among(b, "0123456789abcdefABCDEF")
    ensures forall i :: 0 <= i < 16 ==>
              R.HexValue("0123456789abcdef"[i] as int) == i && R.HexValue("0123456789ABCDEF"[i] as int) == i
  {
    var all := "0123456789abcdefABCDEF";
    assert '0' as int <= b <= '9' as int ==> all[b - 48] as int == b;
    assert 'a' as int <= b <= 'f' as int ==> all[b - 87] as int == b;
    assert 'A' as int <= b <= 'F' as int ==> all[b - 49] as int == b;
    LowerHex();
    UpperHex();
    forall i | 0 <= i < 22 ensures R.HexValue(all[i] as int) != -1 {
      assert i < 16 ==> all[i] == "0123456789abcdef"[i];
      assert i >= 16 ==> all[i] == "0123456789ABCDEF"[i - 6];
    }
  }

  lemma LowerHex()
    ensures forall i :: 0 <= i < 16 ==> R.HexValue("0123456789abcdef"[i] as int) == i
  {
    var s := "0123456789abcdef";
    assert s[0] == '0' && s[1] == '1' && s[2] == '2' && s[3] == '3' && s[4] == '4' && s[5] == '5';
    assert s[6] == '6' && s[7] == '7' && s[8] == '8' && s[9] == '9' && s[10] == 'a' && s[11] == 'b';
    assert s[12] == 'c' && s[13] == 'd' && s[14] == 'e' && s[15] == 'f';
  }

  lemma UpperHex()
    ensures forall i :: 0 <= i < 16 ==> R.HexValue("0123456789ABCDEF"[i] as int) == i
  {
    var s := "0123456789ABCDEF";
    assert s[0] == '0' && s[1] == '1' && s[2] == '2' && s[3] == '3' && s[4] == '4' && s[5] == '5';
    assert s[6] == '6' && s[7] == '7' && s[8] == '8' && s[9] == '9' && s[10] == 'A' && s[11] == 'B';
    assert s[12] == 'C' && s[13] == 'D' && s[14] == 'E' && s[15] == 'F';
  }

  /** A control character without a letter of its own is printed as `\u00` and two lower-case hex digits; every byte
      that is none and needs no escape is printed as it is. */
  lemma PrintedBytes(b: byte)
    requires b !in MEANINGS
    ensures b < ' ' as int || b == 127 ==>
              P.EscapeByte(b) == Ascii("\\u00") + ["0123456789abcdef"[b / 16] as int, "0123456789abcdef"[b % 16] as int]
    ensures !(b < ' ' as int || b == 127) ==> P.EscapeByte(b) == [b]
  {
    assert MEANINGS[0] == 34 && MEANINGS[1] == 92 && MEANINGS[2] == 47 && MEANINGS[3] == 8 && MEANINGS[4] == 12;
    assert MEANINGS[5] == 10 && MEANINGS[6] == 13 && MEANINGS[7] == 9;
    assert Ascii("\\u00") == [92, 117, 48, 48];
    PrintedDigits();
  }

  lemma PrintedDigits()
    ensures forall i :: 0 <= i < 16 ==> P.HexDigit(i) == "0123456789abcdef"[i] as int
  {
    var s := "0123456789abcdef";
    assert s[0] == '0' && s[1] == '1' && s[2] == '2' && s[3] == '3' && s[4] == '4' && s[5] == '5';
    assert s[6] == '6' && s[7] == '7' && s[8] == '8' && s[9] == '9' && s[10] == 'a' && s[11] == 'b';
    assert s[12] == 'c' && s[13] == 'd' && s[14] == 'e' && s[15] == 'f';
  }

  /** The clef of section 7 of RFC 8259: the pair `\uD834\uDD1E` is U+1D11E. */
  lemma Clef(k: Bytes)
    ensures R.Codepoint(Ascii("D834\\uDD1E") + k) == R.Result(Some([0xF0, 0x9D, 0x84, 0x9E]), k, R.Held)
  {
    hide R.Codepoint, R.HexNumber, R.AllHex, Utf8.Encode, Utf8.Combine;
    var h, l := [68, 56, 51, 52], [68, 68, 49, 69];
    ClefUnits();
    ClefBytes();
    EscapedUnits(h, l, k);
    assert Ascii("D834\\uDD1E") == [68, 56, 51, 52, 92, 117, 68, 68, 49, 69];
    assert Ascii("D834\\uDD1E") + k == h + (SLASH_U + (l + k));
  }

  lemma ClefUnits()
    ensures IsUnit([68, 56, 51, 52]) && R.HexNumber([68, 56, 51, 52]) == 0xD834
    ensures IsUnit([68, 68, 49, 69]) && R.HexNumber([68, 68, 49, 69]) == 0xDD1E
  {
    hide R.HexNumber;
    R.HexNumberFour([68, 56, 51, 52]);
    R.HexNumberFour([68, 68, 49, 69]);
  }

  lemma ClefBytes()
    ensures Utf8.Combine(0xD834, 0xDD1E) == 0x1D11E && Utf8.Encode(0x1D11E) == [0xF0, 0x9D, 0x84, 0x9E]
  {
  }

  // ---- Order of keys ----

  /** `std::string` order: at the first difference the smaller byte decides, and a proper prefix comes first. */
  lemma {:induction false} LessIff(a: Bytes, b: Bytes)
    ensures Less(a, b) <==> exists k :: FirstDifference(a, b, k)
  {
    if a != [] && b != [] && a[0] == b[0] {
      LessIff(a[1..], b[1..]);
      forall k | FirstDifference(a[1..], b[1..], k) ensures FirstDifference(a, b, k + 1) {
        assert a[..k + 1] == [a[0]] + a[1..][..k] && b[..k + 1] == [b[0]] + b[1..][..k];
      }
      forall k | FirstDifference(a, b, k) ensures FirstDifference(a[1..], b[1..], k - 1) {
        assert k > 0;
        assert a[1..][..k - 1] == a[..k][1..] && b[1..][..k - 1] == b[..k][1..];
      }
    } else {
      assert b != [] && (a == [] || a[0] < b[0]) ==> FirstDifference(a, b, 0);
      forall k | FirstDifference(a, b, k) ensures k == 0 {
        LaterDifference(a, b, k);
      }
    }
  }

  lemma LaterDifference(a: Bytes, b: Bytes, k: int)
    requires FirstDifference(a, b, k)
    ensures k > 0 ==> a != [] && b != [] && a[0] == b[0]
  {
    assert k > 0 ==> a[..k][0] == a[0] && b[..k][0] == b[0];
  }

  predicate FirstDifference(a: Bytes, b: Bytes, k: int) {
    0 <= k <= |a| && k < |b| && a[..k] == b[..k] && (k == |a| || a[k] < b[k])
  }

  // ---- Messages ----

  lemma Message()
    ensures JsonParser.AT_LINE == Ascii("syntax error at line ") && JsonParser.NEAR == Ascii(" near: ")
    ensures JsonInput.LF == '\n' as int
  {
  }

  /** What the message quotes: the printable part of the line, in order, without what comes behind the line feed. */
  lemma {:induction false} NearLine(line: Bytes, rest: Bytes)
    requires '\n' as int !in line
    ensures JsonParser.NextLine(line + ([10] + rest)) == rest
    ensures JsonParser.Near(line + ([10] + rest)) == JsonParser.Near(line)
    ensures forall b :: b in JsonParser.Near(line) <==> b in line && b >= ' ' as int
  {
    var s := line + ([10] + rest);
    if line == [] {
      assert s == [10] + rest && s[1..] == rest;
    } else {
      assert s[1..] == line[1..] + ([10] + rest);
      NearLine(line[1..], rest);
      assert line == [line[0]] + line[1..];
    }
  }

  lemma {:induction false} NearPrintable(line: Bytes)
    requires forall i :: 0 <= i < |line| ==> line[i] >= ' ' as int
    ensures JsonParser.Near(line) == line
  {
    if line != [] {
      NearPrintable(line[1..]);
      assert line == [line[0]] + line[1..];
    }
  }

  lemma {:induction false} NearJoins(a: Bytes, b: Bytes)
    requires '\n' as int !in a
    ensures JsonParser.Near(a + b) == JsonParser.Near(a) + JsonParser.Near(b)
  {
    if a == [] {
      assert a + b == b && [] + JsonParser.Near(b) == JsonParser.Near(b);
    } else {
      assert (a + b)[1..] == a[1..] + b;
      NearJoins(a[1..], b);
      Assoc(if a[0] >= 32 then [a[0]] else [], JsonParser.Near(a[1..]), JsonParser.Near(b));
    }
  }

  /** Integers are printed without an exponent below 2^53 = 9007199254740992 in magnitude, and only there. */
  lemma PrintedNumbers(libc: Libc, n: int)
    ensures NumberText(libc, n as real)
         == if -9007199254740992 < n < 9007199254740992 then Decimal(n) else libc.g17(n as real)
  {
    assert (n as real).Floor == n;
  }
}
