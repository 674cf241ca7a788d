/** The string reader keeps UTF-8: raw bytes pass unchanged, and every escape adds a whole character. */
module JsonUtf8 {
  import opened Text
  import opened JsonValue
  import Utf8
  import R = JsonReader
  import opened JsonLaws

  lemma AsciiStep(s: Bytes)
    requires Utf8.Valid(s) && s != [] && s[0] < 0x80
    ensures Utf8.Valid(s[1..])
  {
    hide Utf8.Decode;
    Utf8.DecodeSize(s);
  }

  lemma {:induction false} AsciiSteps(s: Bytes, n: nat)
    requires Utf8.Valid(s) && n <= |s| && forall i :: 0 <= i < n ==> s[i] < 0x80
    ensures Utf8.Valid(s[n..])
  {
    hide Utf8.Valid;
    if n > 0 {
      AsciiStep(s);
      AsciiSteps(s[1..], n - 1);
      assert s[1..][n - 1..] == s[n..];
    } else {
      assert s[0..] == s;
    }
  }

  lemma {:induction false} RawBytes(e: Bytes, s: Bytes, acc: Bytes)
    requires forall i :: 0 <= i < |e| ==> e[i] >= 0x80
    ensures R.Str(e + s, true, acc) == R.Str(s, true, acc + e)
  {
    if e == [] {
      assert e + s == s && acc + e == acc;
    } else {
      assert (e + s)[1..] == e[1..] + s;
      RawBytes(e[1..], s, acc + [e[0]]);
      assert acc + [e[0]] + e[1..] == acc + e;
    }
  }

  /** A decoded escape is one whole character, and only ASCII was read for it. */
  lemma CodepointKeeps(s: Bytes)
    requires Utf8.Valid(s) && R.Codepoint(s).val.Some?
    ensures Utf8.Valid(R.Codepoint(s).rest) && Utf8.Valid(R.Codepoint(s).val.value)
  {
    hide R.QuadHex, Utf8.Valid, Utf8.Encode, Utf8.Combine;
    CodepointAccepts(s);
    QuadHexDecides(s);
    HexAscii(s[..4]);
    var u := R.HexNumber(s[..4]);
    if Utf8.IsScalar(u) {
      AsciiSteps(s, 4);
      Utf8.EncodingValid(u);
    } else {
      var l := R.HexNumber(s[6..10]);
      assert s[4] == s[4..6][0] && s[5] == s[4..6][1];
      assert s[4..][2..] == s[6..] && s[6..][..4] == s[6..10] && s[6..][4..] == s[10..];
      QuadHexDecides(s[6..]);
      HexAscii(s[6..10]);
      assert forall i :: 6 <= i < 10 ==> s[i] == s[6..10][i - 6];
      AsciiSteps(s, 10);
      Utf8.EncodingValid(Utf8.Combine(u, l));
    }
  }

  lemma HexAscii(h: Bytes)
    requires R.AllHex(h)
    ensures forall i :: 0 <= i < |h| ==> h[i] < 0x80
  {
  }

  /** If the text is UTF-8, so is every string read from it, and so is what is left. */
  lemma {:induction false} StrKeepsUtf8(s: Bytes, acc: Bytes)
    requires Utf8.Valid(s) && Utf8.Valid(acc)
    ensures var r := R.Str(s, true, acc); r.val.Some? ==> Utf8.Valid(r.val.value) && Utf8.Valid(r.rest)
    decreases |s|
  {
    hide R.Codepoint, Utf8.Decode;
    if s == [] || s[0] < 32 {
    } else if s[0] == QUOTE {
      AsciiStep(s);
    } else if s[0] == BACKSLASH {
      AsciiStep(s);
      var t := s[1..];
      if t != [] && R.Unescaped(t[0]) != -1 {
        AsciiStep(t);
        OneAscii(R.Unescaped(t[0]));
        Utf8.ValidJoins(acc, [R.Unescaped(t[0])]);
        StrKeepsUtf8(t[1..], acc + [R.Unescaped(t[0])]);
      } else if t != [] && t[0] == 117 && R.Codepoint(t[1..]).val.Some? {
        AsciiStep(t);
        CodepointKeeps(t[1..]);
        var c := R.Codepoint(t[1..]);
        Utf8.ValidJoins(acc, c.val.value);
        StrKeepsUtf8(c.rest, acc + c.val.value);
      }
    } else if s[0] < 0x80 {
      AsciiStep(s);
      OneAscii(s[0]);
      Utf8.ValidJoins(acc, [s[0]]);
      StrKeepsUtf8(s[1..], acc + [s[0]]);
    } else {
      Utf8.DecodeSize(s);
      var n := Utf8.Decode(s).value.1;
      assert s == s[..n] + s[n..];
      RawBytes(s[..n], s[n..], acc);
      OneCharacter(s);
      Utf8.ValidJoins(acc, s[..n]);
      StrKeepsUtf8(s[n..], acc + s[..n]);
    }
  }

  lemma OneAscii(b: byte)
    requires b < 0x80
    ensures Utf8.Valid([b])
  {
    assert [b][1..] == [];
  }

  lemma OneCharacter(s: Bytes)
    requires Utf8.Decode(s).Some?
    ensures var n := Utf8.Decode(s).value.1; n <= |s| && Utf8.Valid(s[..n])
  {
    Utf8.EncodeDecode(s);
    Utf8.EncodingValid(Utf8.Decode(s).value.0);
  }
}
