/** `convertAssign`: storing a database value in a Go variable of another type without loss. */
module Convert {
  import opened Text

  // ---- Types and values ----

  datatype Kind = Int | Int8 | Int16 | Int32 | Int64 | Uint | Uint8 | Uint16 | Uint32 | Uint64

  predicate Signed(k: Kind) {
    k.Int? || k.Int8? || k.Int16? || k.Int32? || k.Int64?
  }

  /** The number of values of a kind, on a platform whose plain int has 64 bits. */
  function Range(k: Kind): (n: nat)
    ensures n % 2 == 0
  {
    if k.Int8? || k.Uint8? then 0x100
    else if k.Int16? || k.Uint16? then 0x1_0000
    else if k.Int32? || k.Uint32? then 0x1_0000_0000
    else 0x1_0000_0000_0000_0000
  }

  predicate Fits(k: Kind, n: int) {
    if Signed(k) then -(Range(k) / 2) <= n < Range(k) / 2 else 0 <= n < Range(k)
  }

  /** Types of destinations. Name zero is the predeclared type, other names are types defined from it. */
  datatype Type =
    | IntType(kind: Kind, name: nat)
    | FloatType(single: bool, name: nat)
    | StringType(name: nat)
    | BoolType(name: nat)
    | BytesType
    | RawBytesType
    | AnyType
    | PointerType(elem: Type)

  datatype Source =
    | Nil
    | Integer(kind: Kind, name: nat, n: int)
    | String(name: nat, s: Bytes)
    | ByteSlice(b: Option<Bytes>) // None is the nil slice
    | Boolean(name: nat, truth: bool)
    | Float(single: bool, name: nat, r: real) // float32 or float64

  type GoSource = s: Source | s.Integer? ==> Fits(s.kind, s.n) witness Nil

  datatype Flat =
    | Number(n: int)
    | Decimals(r: real)
    | Chars(s: Bytes)
    | Slice(b: Option<Bytes>)
    | Truth(truth: bool)
    | Boxed(src: GoSource)

  /** What a variable holds: pointers lead to further variables. */
  datatype Stored = Plain(v: Flat) | Ref(to: Cell?)

  class Cell {
    const typ: Type
    var held: Stored

    /** A new variable with the zero value. */
    constructor (typ: Type)
      ensures this.typ == typ && held == Zero(typ)
    {
      this.typ := typ;
      held := Zero(typ);
    }

    predicate Valid()
      reads this
    {
      match typ
      case IntType(_, _) => held.Plain? && held.v.Number?
      case FloatType(_, _) => held.Plain? && held.v.Decimals?
      case StringType(_) => held.Plain? && held.v.Chars?
      case BoolType(_) => held.Plain? && held.v.Truth?
      case BytesType => held.Plain? && held.v.Slice?
      case RawBytesType => held.Plain? && held.v.Slice?
      case AnyType => held.Plain? && held.v.Boxed?
      case PointerType(_) => held.Ref?
    }
  }

  function Zero(t: Type): Stored {
    match t
    case IntType(_, _) => Plain(Number(0))
    case FloatType(_, _) => Plain(Decimals(0.0))
    case StringType(_) => Plain(Chars([]))
    case BoolType(_) => Plain(Truth(false))
    case BytesType => Plain(Slice(None))
    case RawBytesType => Plain(Slice(None))
    case AnyType => Plain(Boxed(Nil))
    case PointerType(_) => Ref(null)
  }

  // ---- Text ----

  /** The standard library: `driver.Bool.ConvertValue`, and `strconv` on floats of one of the two widths. */
  datatype Std = Std(
    toBool: Source -> Option<bool>, formatFloat: (real, bool) -> Bytes, parseFloat: (Bytes, bool) -> Option<real>)

  /** `strconv.ParseInt` and `strconv.ParseUint` in base 10 for the width of `k`. ParseUint takes no sign. */
  function ParseNumber(k: Kind, s: Bytes): Option<int> {
    var n: Option<int> := if Signed(k) then Numeral(s) else Unsigned(s);
    if n.Some? && Fits(k, n.value) then n else None
  }

  const NIL: Bytes := [60, 110, 105, 108, 62]

  function Contents(b: Option<Bytes>): Bytes {
    match b
    case None => []
    case Some(s) => s
  }

  function AsString(std: Std, src: Source): Bytes {
    match src
    case String(_, s) => s
    case ByteSlice(b) => Contents(b)
    case Integer(_, _, n) => Decimal(n)
    case Float(single, _, r) => std.formatFloat(r, single)
    case Boolean(_, b) => if b then TRUE else FALSE
    case Nil => NIL
  }

  /** Go's `append`: appending nothing leaves a nil slice nil. */
  function Append(buf: Option<Bytes>, s: Bytes): Option<Bytes> {
    if s == [] then buf else Some(Contents(buf) + s)
  }

  /** `asBytes`; None stands for a false `ok`. */
  function AsBytes(std: Std, buf: Option<Bytes>, src: Source): Option<Option<Bytes>> {
    match src
    case Integer(_, _, n) => Some(Append(buf, Decimal(n)))
    case Float(single, _, r) => Some(Append(buf, std.formatFloat(r, single)))
    case Boolean(_, b) => Some(Append(buf, if b then TRUE else FALSE))
    case String(_, s) => Some(Append(buf, s))
    case _ => None
  }

  lemma AsBytesAppends(std: Std, buf: Option<Bytes>, src: Source)
    ensures AsBytes(std, buf, src).Some? <==> !src.Nil? && !src.ByteSlice?
    ensures AsBytes(std, buf, src).Some? ==>
              Contents(AsBytes(std, buf, src).value) == Contents(buf) + AsString(std, src)
  {
    assert Contents(buf) + [] == Contents(buf);
  }

  // ---- Assignment ----

  datatype Outcome = Done | NilPointer | BadText | BadBool | Unsupported | Panics

  datatype Deep = Leaf(v: Flat) | Pointer(to: Option<Deep>)

  /** The outcome, and what was stored in the destination, if anything was. */
  datatype Effect = Effect(outcome: Outcome, written: Option<Deep>)

  ghost predicate Holds(c: Cell, d: Deep)
    reads *
    decreases d
  {
    match d
    case Leaf(v) => c.held == Plain(v)
    case Pointer(None) => c.held == Ref(null)
    case Pointer(Some(e)) => c.held.Ref? && c.held.to != null && Holds(c.held.to, e)
  }

  function Stores(v: Flat): Effect {
    Effect(Done, Some(Leaf(v)))
  }

  function Fails(outcome: Outcome): Effect {
    Effect(outcome, None)
  }

  /** `d[:0]` of a slice. */
  function Emptied(b: Option<Bytes>): Option<Bytes> {
    if b.Some? then Some([]) else None
  }

  /** What the assignment does, destination type by destination type. `buffer` is what a RawBytes destination
      held before; `toBool` is the conversion to bool of the standard library. */
  function Assign(t: Type, buffer: Option<Bytes>, src: GoSource, std: Std): Effect {
    match t
    case IntType(kind, _) =>
      if src.Integer? && src.kind == kind then Stores(Number(src.n))
      else (
        match ParseNumber(kind, AsString(std, src))
        case Some(n) => Stores(Number(n))
        case None => Fails(BadText)
      )
    case FloatType(single, _) =>
      if src.Float? && src.single == single then Stores(Decimals(src.r))
      else (
        match std.parseFloat(AsString(std, src), single)
        case Some(r) => Stores(Decimals(r))
        case None => Fails(BadText)
      )
    case StringType(name) =>
      if src.String? || src.ByteSlice? || (name == 0 && !src.Nil?) then Stores(Chars(AsString(std, src)))
      else Fails(Unsupported)
    case BoolType(name) =>
      if name == 0 then
        (match std.toBool(src) case Some(b) => Stores(Truth(b)) case None => Fails(BadBool))
      else if src.Boolean? then Stores(Truth(src.truth))
      else Fails(Unsupported)
    case BytesType =>
      if src.Nil? then Stores(Slice(None))
      else if src.ByteSlice? then Stores(Slice(src.b))
      else if src.String? && src.name == 0 then Stores(Slice(Some(src.s)))
      else Stores(Slice(Append(None, AsString(std, src))))
    case RawBytesType =>
      if src.Nil? then Stores(Slice(None))
      else if src.ByteSlice? then Stores(Slice(src.b))
      else Stores(Slice(Append(Emptied(buffer), AsString(std, src))))
    case AnyType => Stores(Boxed(src))
    case PointerType(elem) =>
      if src.Nil? then Effect(Done, Some(Pointer(None)))
      else
        var inner := Assign(elem, None, src, std);
        Effect(inner.outcome, Some(Pointer(Some(if inner.written.Some? then inner.written.value else Blank(elem)))))
  }

  function Blank(t: Type): Deep {
    if t.PointerType? then Pointer(None) else Leaf(Zero(t).v)
  }

  /** The kinds that `*string` takes through their text. */
  predicate Basic(src: Source) {
    src.Integer? || src.Boolean? || src.Float?
  }

  /** What a nil destination pointer leads to. Some paths check it, some dereference it. */
  function AssignToNil(t: Type, src: GoSource, std: Std): Outcome {
    match t
    case StringType(0) => if Basic(src) then Panics else NilPointer
    case BoolType(0) => if std.toBool(src).Some? then Panics else BadBool
    case BytesType => if Basic(src) || (src.String? && src.name != 0) then Panics else NilPointer
    case RawBytesType => if Basic(src) || (src.String? && src.name != 0) then Panics else NilPointer
    case AnyType => if src.Nil? || src.ByteSlice? then NilPointer else Panics
    case _ => NilPointer
  }

  /** The assignment itself, in the order of the source's cases. */
  method ConvertAssign(t: Type, dest: Cell?, src: GoSource, std: Std) returns (r: Outcome)
    requires dest != null ==> dest.typ == t && dest.Valid()
    modifies dest
    ensures dest == null ==> r == AssignToNil(t, src, std)
    ensures dest != null ==>
              var e := Assign(t, old(if t.RawBytesType? then dest.held.v.b else None), src, std);
              && r == e.outcome
              && (e.written.None? ==> dest.held == old(dest.held))
              && (e.written.Some? ==> Holds(dest, e.written.value))
    decreases t, 1
  {
    // The common cases.
    if src.String? && src.name == 0 && (t == StringType(0) || t.BytesType? || t.RawBytesType?) {
      if dest == null {
        return NilPointer;
      }
      dest.held := Plain(
        if t.StringType? then Chars(src.s)
        else if t.BytesType? then Slice(Some(src.s))
        else Slice(Append(Emptied(dest.held.v.b), src.s)));
      return Done;
    }
    if src.ByteSlice? && (t == StringType(0) || t.AnyType? || t.BytesType? || t.RawBytesType?) {
      if dest == null {
        return NilPointer;
      }
      dest.held := Plain(
        if t.StringType? then Chars(Contents(src.b))
        else if t.AnyType? then Boxed(src)
        else Slice(src.b));
      return Done;
    }
    if src.Nil? && (t.AnyType? || t.BytesType? || t.RawBytesType?) {
      if dest == null {
        return NilPointer;
      }
      dest.held := Plain(if t.AnyType? then Boxed(Nil) else Slice(None));
      return Done;
    }
    // The destinations that take any basic value.
    if t == StringType(0) && Basic(src) {
      if dest == null {
        return Panics;
      }
      dest.held := Plain(Chars(AsString(std, src)));
      return Done;
    }
    if t.BytesType? && AsBytes(std, None, src).Some? {
      if dest == null {
        return Panics;
      }
      dest.held := Plain(Slice(AsBytes(std, None, src).value));
      return Done;
    }
    if t.RawBytesType? {
      if dest == null {
        return Panics;
      }
      var b := AsBytes(std, Emptied(dest.held.v.b), src);
      if b.Some? {
        dest.held := Plain(Slice(b.value));
        return Done;
      }
    }
    if t == BoolType(0) {
      var b := std.toBool(src);
      if b.None? {
        return BadBool;
      }
      if dest == null {
        return Panics;
      }
      dest.held := Plain(Truth(b.value));
      return Done;
    }
    if t.AnyType? {
      if dest == null {
        return Panics;
      }
      dest.held := Plain(Boxed(src));
      return Done;
    }
    r := AssignReflected(t, dest, src, std);
  }

  /** The part that looks at the kinds of the two types. */
  method AssignReflected(t: Type, dest: Cell?, src: GoSource, std: Std) returns (r: Outcome)
    requires dest != null ==> dest.typ == t && dest.Valid()
    requires !t.AnyType? && !t.BytesType? && !t.RawBytesType? && t != BoolType(0)
    requires t == StringType(0) ==> !Basic(src)
    modifies dest
    ensures dest == null ==> r == NilPointer
    ensures dest != null ==>
              var e := Assign(t, None, src, std);
              && r == e.outcome
              && (e.written.None? ==> dest.held == old(dest.held))
              && (e.written.Some? ==> Holds(dest, e.written.value))
    decreases t, 0
  {
    if dest == null {
      return NilPointer;
    }
    // The same kind: assigned as it is.
    if t.IntType? && src.Integer? && src.kind == t.kind {
      dest.held := Plain(Number(src.n));
      return Done;
    }
    if t.FloatType? && src.Float? && src.single == t.single {
      dest.held := Plain(Decimals(src.r));
      return Done;
    }
    if t.StringType? && src.String? {
      dest.held := Plain(Chars(src.s));
      return Done;
    }
    if t.BoolType? && src.Boolean? {
      dest.held := Plain(Truth(src.truth));
      return Done;
    }
    // Through text.
    if t.PointerType? {
      if src.Nil? {
        dest.held := Ref(null);
        return Done;
      }
      var target := new Cell(t.elem);
      dest.held := Ref(target);
      r := ConvertAssign(t.elem, target, src, std);
      return;
    }
    if t.IntType? {
      var n := ParseNumber(t.kind, AsString(std, src));
      if n.None? {
        return BadText;
      }
      dest.held := Plain(Number(n.value));
      return Done;
    }
    if t.FloatType? {
      var r := std.parseFloat(AsString(std, src), t.single);
      if r.None? {
        return BadText;
      }
      dest.held := Plain(Decimals(r.value));
      return Done;
    }
    if t.StringType? && src.ByteSlice? {
      dest.held := Plain(Chars(Contents(src.b)));
      return Done;
    }
    return Unsupported;
  }

  // ---- Laws ----

  /** An integer assignment succeeds exactly if the value fits, whatever the two integer types are. It then stores
      that value; otherwise it stores nothing. */
  lemma IntegerExact(kind: Kind, name: nat, buffer: Option<Bytes>, src: GoSource, std: Std)
    requires src.Integer?
    ensures Assign(IntType(kind, name), buffer, src, std)
         == if Fits(kind, src.n) then Stores(Number(src.n)) else Fails(BadText)
  {
    NumeralDecimal(src.n);
  }

  /** Sources other than integers that are read through their text. */
  predicate IsText(src: Source) {
    src.String? || src.ByteSlice? || src.Float?
  }

  /** The integer a value stands for. */
  function Denotes(std: Std, src: Source): Option<int> {
    if src.Integer? then Some(src.n)
    else if IsText(src) then Numeral(AsString(std, src))
    else None
  }

  predicate HasSign(s: Bytes) {
    s != [] && (s[0] == PLUS || s[0] == MINUS)
  }

  lemma UnsignedIff(s: Bytes)
    ensures Unsigned(s).Some? <==> Numeral(s).Some? && !HasSign(s)
    ensures !HasSign(s) ==> Unsigned(s) == Numeral(s)
  {
    if HasSign(s) {
      assert !IsDigit(s[0]);
    }
  }

  /** Text goes into an integer exactly if it is a numeral that fits and, for an unsigned destination, has no
      sign, not even in front of zero. */
  lemma TextExact(kind: Kind, name: nat, buffer: Option<Bytes>, src: GoSource, std: Std)
    requires IsText(src)
    ensures var e := Assign(IntType(kind, name), buffer, src, std);
            var n := Denotes(std, src);
            if n.Some? && Fits(kind, n.value) && (Signed(kind) || !HasSign(AsString(std, src)))
            then e == Stores(Number(n.value))
            else e == Fails(BadText)
  {
    UnsignedIff(AsString(std, src));
  }

  /** The source that reading a stored value back gives. */
  function AsSource(v: Flat): Source
    requires v.Chars? || v.Slice?
  {
    if v.Chars? then String(0, v.s) else ByteSlice(v.b)
  }

  predicate Textual(t: Type) {
    t.StringType? || t.BytesType? || t.RawBytesType?
  }

  /** A textual destination receives the source's text. */
  lemma StoresText(t: Type, buffer: Option<Bytes>, src: GoSource, std: Std) returns (v: Flat)
    requires Textual(t) && !src.Nil? && Assign(t, buffer, src, std).outcome == Done
    ensures v.Chars? || v.Slice?
    ensures Assign(t, buffer, src, std) == Stores(v)
    ensures AsString(std, AsSource(v)) == AsString(std, src)
  {
    hide Decimal;
    v := Assign(t, buffer, src, std).written.value.v;
    assert [] + AsString(std, src) == AsString(std, src);
  }

  /** From an integer to text and back is the identity, through any of the textual types and into any integer
      type the value fits. */
  lemma ThroughText(t: Type, buffer: Option<Bytes>, src: GoSource, kind: Kind, std: Std) returns (v: Flat)
    requires src.Integer? && Fits(kind, src.n)
    requires t == StringType(0) || t.BytesType? || t.RawBytesType?
    ensures v.Chars? || v.Slice?
    ensures Assign(t, buffer, src, std) == Stores(v)
    ensures Assign(IntType(kind, 0), None, AsSource(v), std) == Stores(Number(src.n))
  {
    hide Digits, Unsigned, Numeral, AllDigits, Decimal, Range;
    v := StoresText(t, buffer, src, std);
    NumeralDecimal(src.n);
  }

  function Innermost(t: Type): Type {
    if t.PointerType? then Innermost(t.elem) else t
  }

  function Depth(t: Type): nat {
    if t.PointerType? then 1 + Depth(t.elem) else 0
  }

  /** `v` behind `n` pointers. */
  function Behind(v: Flat, n: nat): Deep {
    if n == 0 then Leaf(v) else Pointer(Some(Behind(v, n - 1)))
  }

  /** Assigning through any number of pointers is assigning to a fresh variable of the type at the end, and
      hanging that variable behind the pointers, also when the conversion failed. */
  lemma {:induction false} ThroughPointers(t: Type, buffer: Option<Bytes>, src: GoSource, std: Std)
    requires t.PointerType? && !src.Nil?
    ensures var e := Assign(Innermost(t), None, src, std);
            && (e.written.Some? ==> e.written.value.Leaf?)
            && var v := if e.written.Some? then e.written.value.v else Zero(Innermost(t)).v;
               Assign(t, buffer, src, std) == Effect(e.outcome, Some(Behind(v, Depth(t))))
  {
    if t.elem.PointerType? {
      ThroughPointers(t.elem, None, src, std);
    } else {
      OnePointer(t);
    }
  }

  lemma OnePointer(t: Type)
    requires t.PointerType? && !t.elem.PointerType?
    ensures Innermost(t) == t.elem && Depth(t) == 1
    ensures forall v: Flat :: Behind(v, 1) == Pointer(Some(Leaf(v)))
  {
  }

  /** A failed assignment leaves the destination alone exactly if the destination is not itself a pointer. */
  lemma FailureWrites(t: Type, buffer: Option<Bytes>, src: GoSource, std: Std)
    ensures var e := Assign(t, buffer, src, std);
            && (e.outcome == Done ==> e.written.Some?)
            && (e.outcome != Done ==> (e.written.None? <==> !t.PointerType?))
  {
  }

  function StoredDenotes(std: Std, v: Flat): Option<int> {
    match v
    case Number(n) => Some(n)
    case Chars(s) => Numeral(s)
    case Slice(b) => Numeral(Contents(b))
    case Truth(_) => None
    case Decimals(_) => None
    case Boxed(src) => Denotes(std, src)
  }

  /** No assignment that succeeds changes the integer: the variable at the end of the pointers stands for the
      same integer as the source, or for none if the source stands for none. Destinations of type bool and float
      are the exception. */
  lemma NoLoss(t: Type, buffer: Option<Bytes>, src: GoSource, std: Std) returns (v: Flat)
    requires Assign(t, buffer, src, std).outcome == Done && !src.Nil?
    requires !Innermost(t).BoolType? && !Innermost(t).FloatType?
    ensures Assign(t, buffer, src, std).written == Some(Behind(v, Depth(t)))
    ensures StoredDenotes(std, v) == Denotes(std, src)
  {
    if t.PointerType? {
      ThroughPointers(t, buffer, src, std);
      v := NoLossDirect(Innermost(t), None, src, std);
    } else {
      v := NoLossDirect(t, buffer, src, std);
    }
  }

  lemma NoLossDirect(t: Type, buffer: Option<Bytes>, src: GoSource, std: Std) returns (v: Flat)
    requires !t.PointerType? && !t.BoolType? && !t.FloatType? && !src.Nil?
    requires Assign(t, buffer, src, std).outcome == Done
    ensures Assign(t, buffer, src, std).written == Some(Leaf(v))
    ensures StoredDenotes(std, v) == Denotes(std, src)
  {
    hide Fits, Digits, Unsigned, Numeral, AllDigits, Decimal, DigitsValue;
    if Textual(t) {
      v := StoresText(t, buffer, src, std);
      TextDenotes(std, src);
    } else {
      v := Assign(t, buffer, src, std).written.value.v;
      TextDenotes(std, src);
      UnsignedIff(AsString(std, src));
    }
  }

  lemma TextDenotes(std: Std, src: Source)
    requires !src.Nil?
    ensures Numeral(AsString(std, src)) == Denotes(std, src)
  {
    if src.Integer? {
      NumeralDecimal(src.n);
    } else if src.Boolean? {
      assert !IsDigit(TRUE[0]) && !IsDigit(FALSE[0]);
    }
  }

  // ---- Which assignments there are ----

  /** A value goes unchanged into a variable of its own type, or of another type of the same kind; and any value into
      an interface. */
  lemma OwnType(t: Type, buffer: Option<Bytes>, src: GoSource, std: Std)
    ensures src.Integer? && t.IntType? && t.kind == src.kind ==> Assign(t, buffer, src, std) == Stores(Number(src.n))
    ensures src.Float? && t.FloatType? && t.single == src.single ==>
              Assign(t, buffer, src, std) == Stores(Decimals(src.r))
    ensures src.String? && t.StringType? ==> Assign(t, buffer, src, std) == Stores(Chars(src.s))
    ensures src.Boolean? && t.BoolType? && t.name != 0 ==> Assign(t, buffer, src, std) == Stores(Truth(src.truth))
    ensures src.ByteSlice? && (t.BytesType? || t.RawBytesType?) ==> Assign(t, buffer, src, std) == Stores(Slice(src.b))
    ensures t.AnyType? ==> Assign(t, buffer, src, std) == Stores(Boxed(src))
  {
  }

  /** What a fresh variable holds, and so what a failed assignment leaves behind pointers. */
  lemma ZeroValues(t: Type)
    ensures Zero(t) ==
      if t.PointerType? then Ref(null)
      else if t.IntType? then Plain(Number(0)) else if t.FloatType? then Plain(Decimals(0.0))
      else if t.StringType? then Plain(Chars([])) else if t.BoolType? then Plain(Truth(false))
      else if t.AnyType? then Plain(Boxed(Nil)) else Plain(Slice(None))
  {
  }

  /** The values of the kinds. */
  lemma KindRanges(n: int)
    ensures Fits(Int8, n) <==> -128 <= n <= 127
    ensures Fits(Int16, n) <==> -32768 <= n <= 32767
    ensures Fits(Int32, n) <==> -2147483648 <= n <= 2147483647
    ensures Fits(Int64, n) <==> -9223372036854775808 <= n <= 9223372036854775807
    ensures Fits(Kind.Int, n) <==> Fits(Int64, n)
    ensures Fits(Uint8, n) <==> 0 <= n <= 255
    ensures Fits(Uint16, n) <==> 0 <= n <= 65535
    ensures Fits(Uint32, n) <==> 0 <= n <= 4294967295
    ensures Fits(Uint64, n) <==> 0 <= n <= 18446744073709551615
    ensures Fits(Kind.Uint, n) <==> Fits(Uint64, n)
  {
  }

  /** The words for truth values and for nil. */
  lemma WordTexts(std: Std, name: nat)
    ensures AsString(std, Nil) == Ascii("<nil>")
    ensures AsString(std, Boolean(name, true)) == Ascii("true")
    ensures AsString(std, Boolean(name, false)) == Ascii("false")
  {
  }

  /** No truth value and no nil makes an integer. */
  lemma WordsMakeNoInteger(kind: Kind, name: nat, buffer: Option<Bytes>, src: GoSource, std: Std)
    requires src.Nil? || src.Boolean?
    ensures Assign(IntType(kind, name), buffer, src, std) == Fails(BadText)
  {
    WordTexts(std, if src.Boolean? then src.name else 0);
    var text := AsString(std, src);
    assert text[0] == '<' as int || text[0] == 't' as int || text[0] == 'f' as int;
    assert !IsDigit(text[0]) && text[0] != PLUS && text[0] != MINUS;
  }

  /** When the stored slice is nil: nothing was appended to nothing. */
  lemma NilSlices(t: Type, buffer: Option<Bytes>, src: GoSource, std: Std) returns (b: Option<Bytes>)
    requires t.BytesType? || t.RawBytesType?
    ensures Assign(t, buffer, src, std) == Stores(Slice(b))
    ensures !src.Nil? ==> Contents(b) == AsString(std, src)
    ensures b == None <==>
              || src.Nil?
              || (src.ByteSlice? && src.b == None)
              || (!src.ByteSlice? && AsString(std, src) == []
                  && if t.BytesType? then !(src.String? && src.name == 0) else buffer == None)
  {
    hide Decimal;
    b := Assign(t, buffer, src, std).written.value.v.b;
    assert [] + AsString(std, src) == AsString(std, src);
  }

  /** Which pairs of types are refused outright, and which only for their text. */
  lemma RefusedIff(t: Type, buffer: Option<Bytes>, src: GoSource, std: Std)
    requires !t.PointerType?
    ensures var o := Assign(t, buffer, src, std).outcome;
      && (o == Unsupported <==>
            || (t.StringType? && (src.Nil? || (t.name != 0 && !src.String? && !src.ByteSlice?)))
            || (t.BoolType? && t.name != 0 && !src.Boolean?))
      && (o == BadText ==> t.IntType? || t.FloatType?)
      && (o == BadBool <==> t == BoolType(0) && std.toBool(src).None?)
      && (t == BoolType(0) && std.toBool(src).Some? ==>
            Assign(t, buffer, src, std) == Stores(Truth(std.toBool(src).value)))
      && o != NilPointer && o != Panics
  {
  }

  /** A nil destination is refused where the code looks for it, and dereferenced where it does not. */
  lemma NilDestination(t: Type, src: GoSource, std: Std)
    ensures var o := AssignToNil(t, src, std);
      && (o == Panics <==>
            || ((t == StringType(0) || t.BytesType? || t.RawBytesType?) && (src.Integer? || src.Boolean? || src.Float?))
            || ((t.BytesType? || t.RawBytesType?) && src.String? && src.name != 0)
            || (t.AnyType? && !src.Nil? && !src.ByteSlice?)
            || (t == BoolType(0) && std.toBool(src).Some?))
      && (o == BadBool <==> t == BoolType(0) && std.toBool(src).None?)
      && (o == Panics || o == BadBool || o == NilPointer)
  {
  }

  // ---- Floats ----

  function Power2(e: nat): nat {
    if e == 0 then 1 else 2 * Power2(e - 1)
  }

  /** The bound of the significands of a float32 or a float64. */
  function Significands(single: bool): int {
    if single then 0x100_0000 else 0x20_0000_0000_0000
  }

  /** An integer with at most 24 or 53 significant bits; the floats of either width hold those up to 2^64. */
  ghost predicate IsFloat(n: int, single: bool) {
    exists m: int, e: nat :: IsScaled(n, m, e, single)
  }

  predicate IsScaled(n: int, m: int, e: nat, single: bool) {
    -Significands(single) <= m <= Significands(single) && n == m * Power2(e)
  }

  /** The integers that some integer type has. */
  predicate HasKind(n: int) {
    -0x8000_0000_0000_0000 <= n < 0x1_0000_0000_0000_0000
  }

  /** `strconv.ParseFloat` on such an integer gives a float of the width asked for, and the integer itself if it is
      one. Nothing is asked of it on other texts. */
  ghost predicate Rounds(std: Std) {
    forall n: int, single: bool :: HasKind(n) ==> RoundsAt(std, n, single)
  }

  ghost predicate RoundsAt(std: Std, n: int, single: bool) {
    match std.parseFloat(Decimal(n), single)
    case Some(r) => (r == r.Floor as real ==> IsFloat(r.Floor, single)) && (IsFloat(n, single) ==> r == n as real)
    case None => false
  }

  ghost function SomeFloat(n: int, single: bool): (d: int)
    ensures IsFloat(d, single) && (IsFloat(n, single) ==> d == n)
  {
    assert IsScaled(0, 0, 0, single);
    if IsFloat(n, single) then n else 0
  }

  /** The contract can be met, by a library that refuses every integer outside the kinds. */
  lemma RoundsIsPossible()
    ensures exists std ::
              Rounds(std) && forall n: int, single: bool :: !HasKind(n) ==> std.parseFloat(Decimal(n), single) == None
  {
    hide IsFloat, Numeral, Decimal;
    var std := Std(_ => None, (_, _) => [], (s, single) =>
      match Numeral(s)
      case Some(n) => if HasKind(n) then Some(SomeFloat(n, single) as real) else None
      case None => None);
    forall n: int, single: bool
      ensures HasKind(n) ==> RoundsAt(std, n, single)
      ensures !HasKind(n) ==> std.parseFloat(Decimal(n), single) == None
    {
      NumeralDecimal(n);
      assert (SomeFloat(n, single) as real).Floor == SomeFloat(n, single);
    }
    assert Rounds(std);
  }

  /** The documentation promises an error where the copy would lose information. Into a float of either width every
      integer is assigned without one, and its value arrives exactly if it has no more significant bits than that
      width: 24 or 53. */
  lemma FloatExactIff(single: bool, name: nat, buffer: Option<Bytes>, src: GoSource, std: Std) returns (r: real)
    requires Rounds(std) && src.Integer?
    ensures Assign(FloatType(single, name), buffer, src, std) == Stores(Decimals(r))
    ensures r == src.n as real <==> IsFloat(src.n, single)
  {
    assert Fits(src.kind, src.n);
    assert RoundsAt(std, src.n, single);
    r := std.parseFloat(Decimal(src.n), single).value;
    assert (src.n as real).Floor == src.n;
  }

  /** 2^24 + 1 does not arrive in a float32, nor 2^53 + 1 in a float64. */
  lemma FloatLoses(single: bool)
    ensures HasKind(Significands(single) + 1) && !IsFloat(Significands(single) + 1, single)
  {
    var n := Significands(single) + 1;
    forall m: int, e: nat ensures !IsScaled(n, m, e, single) {
      if e > 0 {
        assert m * Power2(e) == 2 * (m * Power2(e - 1));
      }
    }
  }
}
