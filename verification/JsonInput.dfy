/** `picojson::input`: a cursor over the text with one byte of push-back. */
module JsonInput {
  import opened Text
  import R = JsonReader

  const LF := 10

  /** One plus the line feeds among the first `fetched` bytes, the latest of them left out. */
  function LineAt(data: Bytes, fetched: nat): nat
    requires fetched <= |data|
  {
    if fetched == 0 then 1 else 1 + multiset(data[..fetched - 1])[LF]
  }

  lemma NextLine(data: Bytes, cur: nat)
    requires cur < |data|
    ensures LineAt(data, cur + 1) == LineAt(data, cur) + if cur > 0 && data[cur - 1] == LF then 1 else 0
  {
    assert cur > 0 ==> data[..cur] == data[..cur - 1] + [data[cur - 1]];
  }

  /** The four fields of the cursor. */
  datatype Fields = Fields(cur: nat, lastCh: int, ungot: bool, line: nat)

  /** The fields that a remainder and a mode stand for. */
  function FieldsAt(data: Bytes, rest: Bytes, mode: R.Mode): Fields
    requires |rest| <= |data|
    requires mode.Held? ==> |rest| < |data|
    requires mode.Pushed? ==> rest != []
  {
    var pos := |data| - |rest|;
    match mode
    case Held => Fields(pos, data[pos - 1], false, LineAt(data, pos))
    case Pushed => Fields(pos + 1, data[pos], true, LineAt(data, pos + 1))
    case Blank => Fields(pos, -1, false, LineAt(data, pos))
  }

  class Input {
    const data: Bytes
    var cur: nat
    var lastCh: int
    var ungot: bool
    var line: nat
    /** The logical remainder. */
    ghost var rest: Bytes
    /** The remainder before the last `getc`. */
    ghost var prior: Bytes

    /** The remainder is always a suffix of the input: it starts at `cur`, or one byte before it. */
    ghost predicate Valid()
      reads this
    {
      && cur <= |data|
      && (lastCh == -1 ==> !ungot && (cur == 0 || cur == |data|) && prior == rest)
      && (lastCh != -1 ==> cur > 0 && lastCh == data[cur - 1] && (!ungot ==> prior == data[cur - 1..]))
      && rest == data[if ungot then cur - 1 else cur..]
      && line == LineAt(data, cur)
    }

    ghost function Mode(): R.Mode
      reads this
    {
      if ungot then R.Pushed else if lastCh == -1 then R.Blank else R.Held
    }

    /** No field holds anything beyond the remainder and the mode. */
    lemma FieldsFollow()
      requires Valid()
      ensures |rest| <= |data|
      ensures Mode().Held? ==> |rest| < |data|
      ensures Mode().Pushed? ==> rest != []
      ensures Fields(cur, lastCh, ungot, line) == FieldsAt(data, rest, Mode())
    {
    }

    constructor (data: Bytes)
      ensures Valid() && this.data == data && rest == data && Mode() == R.Blank
      ensures cur == 0 && lastCh == -1 && !ungot && line == 1
    {
      this.data := data;
      cur, lastCh, ungot, line := 0, -1, false, 1;
      rest, prior := data, data;
    }

    method GetC() returns (ch: int)
      requires Valid()
      modifies this
      ensures Valid() && !ungot && lastCh == ch && prior == old(rest)
      ensures old(rest) == [] ==> ch == -1 && rest == [] && Mode() == R.Blank
      ensures old(rest) != [] ==> ch == old(rest)[0] && rest == old(rest)[1..] && Mode() == R.Held
    {
      hide LineAt;
      prior := rest;
      if ungot {
        ungot := false;
        rest := rest[1..];
        return lastCh;
      }
      if cur == |data| {
        lastCh := -1;
        return -1;
      }
      if lastCh == LF {
        line := line + 1;
      }
      NextLine(data, cur);
      lastCh := data[cur];
      cur := cur + 1;
      rest := rest[1..];
      return lastCh;
    }

    /** The precondition is the assertion the code makes here. */
    method UngetC()
      requires Valid()
      requires lastCh != -1 ==> !ungot
      modifies this
      ensures Valid()
      ensures rest == old(prior)
      ensures Mode() == if old(lastCh) != -1 then R.Pushed else R.Blank
    {
      if lastCh != -1 {
        ungot := true;
        rest := prior;
      }
    }

    method SkipWs()
      requires Valid()
      modifies this
      ensures Valid() && rest == R.SkipWs(old(rest)) && Mode() == R.Peeked(rest)
    {
      while true
        invariant Valid()
        invariant R.SkipWs(rest) == R.SkipWs(old(rest))
        decreases |rest|
      {
        var ch := GetC();
        if !(ch == 32 || ch == 9 || ch == 10 || ch == 13) {
          UngetC();
          break;
        }
      }
    }

    method Expect(b: byte) returns (ok: bool)
      requires Valid()
      modifies this
      ensures Valid()
      ensures var r := R.Expect(old(rest), b); ok == r.val.Some? && rest == r.rest && Mode() == r.mode
    {
      SkipWs();
      var ch := GetC();
      if ch != b {
        UngetC();
        return false;
      }
      return true;
    }

    method Match(pattern: Bytes) returns (ok: bool)
      requires Valid()
      modifies this
      ensures Valid()
      ensures var r := R.Match(old(rest), pattern, old(Mode())); ok == r.val.Some? && rest == r.rest && Mode() == r.mode
    {
      for i := 0 to |pattern|
        invariant Valid()
        invariant R.Match(rest, pattern[i..], Mode()) == R.Match(old(rest), pattern, old(Mode()))
      {
        var ch := GetC();
        assert pattern[i..][1..] == pattern[i + 1..];
        if ch != pattern[i] {
          UngetC();
          return false;
        }
      }
      return true;
    }
  }
}
