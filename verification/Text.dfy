/** Bytes, and the decimal text of an integer and of the truth values, shared by the JSON printer and by
    `convertAssign`. */
module Text {
  type byte = x: int | 0 <= x < 256
  type Bytes = seq<byte>

  datatype Option<+T> = None | Some(value: T)

  /** The bytes of a text in ASCII. */
  function Ascii(s: string): (b: Bytes)
    requires forall i :: 0 <= i < |s| ==> s[i] as int < 128
    ensures |b| == |s| && forall i :: 0 <= i < |s| ==> b[i] == s[i] as int
  {
    seq(|s|, i requires 0 <= i < |s| => s[i] as int)
  }

  const TRUE: Bytes := [116, 114, 117, 101]
  const FALSE: Bytes := [102, 97, 108, 115, 101]

  predicate IsDigit(b: int) {
    48 <= b <= 57
  }

  predicate AllDigits(s: Bytes) {
    forall i :: 0 <= i < |s| ==> IsDigit(s[i])
  }

  /** Decimal digits of `n`, most significant first, without leading zeros. */
  function Digits(n: nat): (s: Bytes)
    ensures |s| > 0 && AllDigits(s)
  {
    if n < 10 then [48 + n] else Digits(n / 10) + [48 + n % 10]
  }

  const MINUS: byte := 45

  /** What `%.f` prints for an integral number, and `strconv.FormatInt` in base 10. */
  function Decimal(n: int): Bytes {
    if n < 0 then [MINUS] + Digits(-n) else Digits(n)
  }

  /** The number a digit string denotes. */
  function DigitsValue(s: Bytes): nat
    requires AllDigits(s)
  {
    if s == [] then 0 else 10 * DigitsValue(s[..|s| - 1]) + (s[|s| - 1] - 48)
  }

  lemma {:induction false} DigitsDenote(n: nat)
    ensures DigitsValue(Digits(n)) == n
  {
    if n >= 10 {
      DigitsDenote(n / 10);
      assert Digits(n)[..|Digits(n)| - 1] == Digits(n / 10);
    } else {
      assert Digits(n)[..0] == [];
    }
  }

  function Unsigned(s: Bytes): Option<nat> {
    if s != [] && AllDigits(s) then Some(DigitsValue(s)) else None
  }

  const PLUS: byte := 43

  function Negated(n: Option<int>): Option<int> {
    if n.Some? then Some(-n.value) else None
  }

  /** The integer a decimal numeral with an optional sign denotes. */
  function Numeral(s: Bytes): Option<int> {
    if s != [] && s[0] == PLUS then Unsigned(s[1..])
    else if s != [] && s[0] == MINUS then
      Negated(Unsigned(s[1..]))
    else Unsigned(s)
  }

  lemma NumeralDecimal(n: int)
    ensures Numeral(Decimal(n)) == Some(n)
    ensures Unsigned(Decimal(n)) == if n < 0 then None else Some(n)
  {
    var d := Digits(if n < 0 then -n else n);
    DigitsDenote(if n < 0 then -n else n);
    assert IsDigit(d[0]);
    if n < 0 {
      assert Decimal(n)[1..] == d;
      assert Decimal(n)[0] == MINUS;
    }
  }

  /** In characters: what is printed. */
  lemma PrintedIntegers()
    ensures Decimal(-1098) == Ascii("-1098") && Decimal(0) == Ascii("0")
  {
    assert Digits(10) == [49, 48] && Digits(109) == [49, 48, 57];
  }

  /** And what is read. */
  lemma ReadIntegers()
    ensures Numeral(Ascii("+7")) == Some(7) && Numeral(Ascii("-7")) == Some(-7)
    ensures Numeral(Ascii("")) == None && Numeral(Ascii("-")) == None && Numeral(Ascii("1 ")) == None
  {
    hide Digits;
    assert Ascii("+7")[1..] == [55] == Ascii("-7")[1..] && [55][..0] == [];
    assert Ascii("-")[1..] == [];
    assert !IsDigit(Ascii("1 ")[1]);
  }

  lemma Assoc<T>(a: seq<T>, b: seq<T>, c: seq<T>)
    ensures (a + b) + c == a + (b + c)
  {
  }
}
