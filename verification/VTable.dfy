/** Virtual tables: `goVBestIndex` plans a scan and `goVFilter` starts it. What the plan promised about the
    constraint values must agree with what the scan receives. */
module VTable {
  import opened Text

  datatype Constraint = Constraint(column: int, op: int, usable: bool)

  /** One entry of the constraint array SQLite passes. */
  datatype RawConstraint = RawConstraint(column: int, op: int, usable: int)

  /** `constraints`: the C array as Go values. */
  method Constraints(raw: seq<RawConstraint>) returns (cst: seq<Constraint>)
    ensures |cst| == |raw|
    ensures forall i :: 0 <= i < |raw| ==> cst[i] == Constraint(raw[i].column, raw[i].op, raw[i].usable > 0)
  {
    cst := [];
    for i := 0 to |raw|
      invariant |cst| == i
      invariant forall k :: 0 <= k < i ==> cst[k] == Constraint(raw[k].column, raw[k].op, raw[k].usable > 0)
    {
      var usable := false;
      if raw[i].usable > 0 {
        usable := true;
      }
      cst := cst + [Constraint(raw[i].column, raw[i].op, usable)];
    }
  }

  datatype OrderBy = OrderBy(column: int, desc: bool)

  datatype RawOrderBy = RawOrderBy(column: int, desc: int)

  /** `orderBys`: the same for the ORDER BY terms. */
  method OrderBys(raw: seq<RawOrderBy>) returns (ob: seq<OrderBy>)
    ensures |ob| == |raw|
    ensures forall i :: 0 <= i < |raw| ==> ob[i] == OrderBy(raw[i].column, raw[i].desc > 0)
  {
    ob := [];
    for i := 0 to |raw|
      invariant |ob| == i
      invariant forall k :: 0 <= k < i ==> ob[k] == OrderBy(raw[k].column, raw[k].desc > 0)
    {
      var desc := false;
      if raw[i].desc > 0 {
        desc := true;
      }
      ob := ob + [OrderBy(raw[i].column, desc)];
    }
  }

  datatype Usage = Usage(argvIndex: int, omit: int)

  /** What the Go table's BestIndex answers. */
  datatype IndexResult = IndexResult(
    used: seq<bool>, idxNum: int, idxStr: Bytes, alreadyOrdered: bool, estimatedCost: real, estimatedRows: real)

  /** The output part of `sqlite3_index_info`; SQLite passes it with every field zero. */
  class IndexInfo {
    const usage: array<Usage>
    var idxNum: int
    var idxStr: array<byte>
    var needToFree: bool
    var orderByConsumed: bool
    var estimatedCost: real
    var estimatedRows: int

    constructor (constraints: nat)
      ensures fresh(usage) && usage.Length == constraints
      ensures forall i :: 0 <= i < constraints ==> usage[i] == Usage(0, 0)
    {
      usage := new Usage[constraints](i => Usage(0, 0));
      idxNum, needToFree, orderByConsumed, estimatedCost, estimatedRows := 0, false, false, 0.0, 0;
      idxStr := new byte[0];
    }
  }

  /** How many of the first `n` constraints are used. */
  function UsedBefore(used: seq<bool>, n: nat): (k: nat)
    requires n <= |used|
    ensures k <= n
  {
    if n == 0 then 0 else UsedBefore(used, n - 1) + if used[n - 1] then 1 else 0
  }

  /** The entry of constraint `i` after planning: the used ones are numbered from one, in order. */
  function Numbered(used: seq<bool>, i: nat, before: Usage): Usage
    requires i < |used|
  {
    if used[i] then Usage(UsedBefore(used, i) + 1, 1) else before
  }

  /** The numbering loop of `goVBestIndex`. */
  method NumberUsed(usage: array<Usage>, used: seq<bool>)
    requires |used| == usage.Length
    modifies usage
    ensures forall i :: 0 <= i < usage.Length ==> usage[i] == Numbered(used, i, old(usage[i]))
    ensures forall i :: 0 <= i < usage.Length ==> if used[i] then usage[i].omit == 1 else usage[i] == old(usage[i])
  {
    var index := 1;
    for i := 0 to usage.Length
      invariant index == UsedBefore(used, i) + 1
      invariant forall k :: 0 <= k < i ==> usage[k] == Numbered(used, k, old(usage[k]))
      invariant forall k :: i <= k < usage.Length ==> usage[k] == old(usage[k])
    {
      if used[i] {
        usage[i] := Usage(index, 1);
        index := index + 1;
      }
    }
  }

  /** The C copy of a Go string. */
  method CopyString(s: Bytes) returns (buf: array<byte>)
    ensures fresh(buf) && buf[..] == s + [0]
  {
    buf := new byte[|s| + 1];
    for i := 0 to |s|
      invariant buf[..i] == s[..i]
    {
      buf[i] := s[i];
    }
    buf[buf.Length - 1] := 0;
  }

  /** A float as an integer: the fraction is dropped. */
  function Truncated(r: real): int {
    if r < 0.0 then -((-r).Floor) else r.Floor
  }

  /** `goVBestIndex`, given the answer of the table's own BestIndex. False stands for the error message. */
  method BestIndex(info: IndexInfo, res: Option<IndexResult>) returns (ok: bool)
    modifies info, info.usage
    ensures ok <==> res.Some? && |res.value.used| == info.usage.Length
    ensures !ok ==> unchanged(info) && unchanged(info.usage)
    ensures ok ==> forall i :: 0 <= i < info.usage.Length ==>
              info.usage[i] == Numbered(res.value.used, i, old(info.usage[i]))
    ensures ok ==> forall i :: 0 <= i < info.usage.Length && res.value.used[i] ==> info.usage[i].omit == 1
    ensures ok ==>
      && info.idxNum == res.value.idxNum && fresh(info.idxStr) && info.idxStr[..] == res.value.idxStr + [0]
      && info.needToFree && info.orderByConsumed == (res.value.alreadyOrdered || old(info.orderByConsumed))
      && info.estimatedCost == res.value.estimatedCost
      && var given, rows := res.value.estimatedRows, info.estimatedRows as real;
         if given >= 0.0 then 0.0 <= rows <= given < rows + 1.0 else rows - 1.0 < given <= rows <= 0.0
  {
    if res.None? || |res.value.used| != info.usage.Length {
      return false;
    }
    NumberUsed(info.usage, res.value.used);
    info.idxNum := res.value.idxNum;
    info.idxStr := CopyString(res.value.idxStr);
    info.needToFree := true;
    if res.value.alreadyOrdered {
      info.orderByConsumed := true;
    }
    info.estimatedCost := res.value.estimatedCost;
    info.estimatedRows := Truncated(res.value.estimatedRows);
    return true;
  }

  // ---- What SQLite does with the plan, and what the scan sees ----

  datatype SqlValue = Null | Integer(i: int) | Real(r: real) | Text(t: Bytes) | Blob(b: Bytes)

  /** What `callbackArgGeneric` makes of a value. */
  datatype GoValue = GoInt(i: int) | GoFloat(r: real) | GoString(t: Bytes) | GoBytes(b: Bytes) | GoNilBytes

  /** `C.GoString`: the bytes before the first NUL. */
  function CString(b: Bytes): (s: Bytes)
    ensures s <= b && (forall i :: 0 <= i < |s| ==> s[i] != 0) && (|s| < |b| ==> b[|s|] == 0)
  {
    if b == [] || b[0] == 0 then [] else [b[0]] + CString(b[1..])
  }

  function Convert(v: SqlValue): GoValue {
    match v
    case Null => GoNilBytes
    case Integer(i) => GoInt(i)
    case Real(r) => GoFloat(r)
    case Text(t) => GoString(CString(t))
    case Blob(b) => GoBytes(b)
  }

  predicate PutsAt(u: Usage, k: nat) {
    u.argvIndex == k + 1
  }

  ghost predicate Filled(usage: seq<Usage>, k: nat) {
    exists i :: 0 <= i < |usage| && PutsAt(usage[i], k)
  }

  /** SQLite's side of the contract: each constraint with a positive argvIndex puts its right-hand value at that
      place, counted from one, and the argument vector has no other entries. */
  ghost predicate ArgvContract(usage: seq<Usage>, rhs: seq<SqlValue>, argv: seq<SqlValue>) {
    && |usage| == |rhs|
    && (forall i :: 0 <= i < |usage| && usage[i].argvIndex > 0 ==>
          usage[i].argvIndex <= |argv| && argv[usage[i].argvIndex - 1] == rhs[i])
    && (forall k :: 0 <= k < |argv| ==> Filled(usage, k))
  }

  /** The right-hand values of the used constraints among the first `n`, in constraint order. */
  function Selected(used: seq<bool>, rhs: seq<SqlValue>, n: nat): (s: seq<SqlValue>)
    requires n <= |used| == |rhs|
    ensures |s| == UsedBefore(used, n)
  {
    if n == 0 then [] else Selected(used, rhs, n - 1) + if used[n - 1] then [rhs[n - 1]] else []
  }

  /** `goVFilter`: the arguments the Go cursor's Filter receives. */
  method Filter(idxNum: int, idxName: Bytes, argv: seq<SqlValue>) returns (num: int, name: Bytes, vals: seq<GoValue>)
    ensures num == idxNum && name == CString(idxName)
    ensures |vals| == |argv| && forall i :: 0 <= i < |argv| ==> vals[i] == Convert(argv[i])
  {
    vals := [];
    for i := 0 to |argv|
      invariant |vals| == i && forall k :: 0 <= k < i ==> vals[k] == Convert(argv[k])
    {
      vals := vals + [Convert(argv[i])];
    }
    return idxNum, CString(idxName), vals;
  }

  /** The usage array after `goVBestIndex` on an array of zeros. */
  predicate Planned(usage: seq<Usage>, used: seq<bool>) {
    && |usage| == |used|
    && forall i :: 0 <= i < |used| ==> usage[i] == Numbered(used, i, Usage(0, 0))
  }

  lemma {:induction false} SelectedAt(used: seq<bool>, rhs: seq<SqlValue>, n: nat, i: nat)
    requires i < n <= |used| == |rhs| && used[i]
    ensures UsedBefore(used, i) < UsedBefore(used, n)
    ensures Selected(used, rhs, n)[UsedBefore(used, i)] == rhs[i]
  {
    if i < n - 1 {
      SelectedAt(used, rhs, n - 1, i);
    }
  }

  /** The used constraints are numbered 1, 2, ... without gaps. */
  lemma {:induction false} NumberTaken(used: seq<bool>, n: nat, k: nat) returns (i: nat)
    requires n <= |used| && k < UsedBefore(used, n)
    ensures i < n && used[i] && UsedBefore(used, i) == k
  {
    if k == UsedBefore(used, n - 1) {
      i := n - 1;
    } else {
      i := NumberTaken(used, n - 1, k);
    }
  }

  lemma {:induction false} UsedBound(used: seq<bool>, i: nat, n: nat)
    requires i < n <= |used| && used[i]
    ensures UsedBefore(used, i) + 1 <= UsedBefore(used, n)
  {
    if i < n - 1 {
      UsedBound(used, i, n - 1);
    }
  }

  lemma NothingElse(usage: seq<Usage>, used: seq<bool>, k: nat)
    requires Planned(usage, used) && Filled(usage, k)
    ensures k < UsedBefore(used, |used|)
  {
    var i :| 0 <= i < |usage| && PutsAt(usage[i], k);
    UsedBound(used, i, |used|);
  }

  lemma PlaceOf(usage: seq<Usage>, used: seq<bool>, rhs: seq<SqlValue>, argv: seq<SqlValue>, k: nat)
    requires Planned(usage, used) && ArgvContract(usage, rhs, argv) && k < UsedBefore(used, |used|)
    ensures k < |argv| && argv[k] == Selected(used, rhs, |used|)[k]
  {
    var i := NumberTaken(used, |used|, k);
    SelectedAt(used, rhs, |used|, i);
    assert usage[i] == Usage(k + 1, 1);
  }

  /** The plan and the scan agree: under SQLite's contract the argument vector is exactly the right-hand values
      of the used constraints, in constraint order. */
  lemma PlanScanAgree(usage: seq<Usage>, used: seq<bool>, rhs: seq<SqlValue>, argv: seq<SqlValue>)
    requires Planned(usage, used) && ArgvContract(usage, rhs, argv)
    ensures argv == Selected(used, rhs, |used|)
  {
    var n := UsedBefore(used, |used|);
    forall k: nat | k < n ensures k < |argv| && argv[k] == Selected(used, rhs, |used|)[k] {
      PlaceOf(usage, used, rhs, argv, k);
    }
    assert |argv| <= n by {
      if |argv| > 0 {
        NothingElse(usage, used, |argv| - 1);
      }
    }
    assert |argv| >= n by {
      if n > 0 {
        PlaceOf(usage, used, rhs, argv, n - 1);
      }
    }
  }

  predicate HasNul(b: Bytes) {
    exists i :: 0 <= i < |b| && b[i] == 0
  }

  /** A C string survives exactly if it has no NUL of its own. */
  lemma {:induction false} CStringIntact(b: Bytes)
    ensures CString(b + [0]) == CString(b)
    ensures CString(b) == b <==> !HasNul(b)
  {
    if b != [] && b[0] != 0 {
      assert (b + [0])[1..] == b[1..] + [0];
      CStringIntact(b[1..]);
      assert b == [b[0]] + b[1..];
      assert HasNul(b) <==> HasNul(b[1..]) by {
        if HasNul(b) {
          var i :| 0 <= i < |b| && b[i] == 0;
          assert b[1..][i - 1] == 0;
        }
        if HasNul(b[1..]) {
          var i :| 0 <= i < |b[1..]| && b[1..][i] == 0;
          assert b[i + 1] == 0;
        }
      }
    }
  }

  /** The value the scan gets for a used constraint carries all of the right-hand side, except for text behind a
      NUL: the text is read as a C string. */
  predicate Carries(g: GoValue, v: SqlValue) {
    match v
    case Null => g == GoNilBytes
    case Integer(i) => g == GoInt(i)
    case Real(r) => g == GoFloat(r)
    case Text(t) => g == GoString(t)
    case Blob(b) => g == GoBytes(b)
  }

  lemma ConvertIntactIff(v: SqlValue)
    ensures Carries(Convert(v), v) <==> !(v.Text? && HasNul(v.t))
  {
    if v.Text? {
      CStringIntact(v.t);
    }
  }

  /** What the Go cursor sees: one value for each used constraint, at the place its number says, and it carries
      that constraint's right-hand side unless that is text with a NUL in it. */
  lemma ScanSees(usage: seq<Usage>, used: seq<bool>, rhs: seq<SqlValue>, argv: seq<SqlValue>, vals: seq<GoValue>)
    requires Planned(usage, used) && ArgvContract(usage, rhs, argv)
    requires |vals| == |argv| && forall k :: 0 <= k < |argv| ==> vals[k] == Convert(argv[k])
    ensures |vals| == UsedBefore(used, |used|)
    ensures forall i :: 0 <= i < |used| && used[i] ==>
              && usage[i].argvIndex <= |vals|
              && (Carries(vals[usage[i].argvIndex - 1], rhs[i]) <==> !(rhs[i].Text? && HasNul(rhs[i].t)))
  {
    PlanScanAgree(usage, used, rhs, argv);
    forall i | 0 <= i < |used| && used[i]
      ensures usage[i].argvIndex <= |vals|
      ensures Carries(vals[usage[i].argvIndex - 1], rhs[i]) <==> !(rhs[i].Text? && HasNul(rhs[i].t))
    {
      assert usage[i] == Numbered(used, i, Usage(0, 0));
      ConvertIntactIff(rhs[i]);
    }
  }
}
