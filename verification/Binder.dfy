/** `SQLiteStmt.bind`: which argument ends up in which parameter of a prepared statement. */
module Binder {
  import opened Text
  import opened Codes

  /** A `driver.Value`. A time is given by its text in the first of `SQLiteTimestampFormats`. */
  datatype GoValue =
    | Nil
    | Str(text: Bytes)
    | Int(i: int)
    | Boolean(b: bool)
    | Float(r: real)
    | Blob(bytes: Bytes)
    | NilBlob
    | Time(formatted: Bytes)

  datatype SqlValue = SqlNull | SqlText(text: Bytes) | SqlInt(i: int) | SqlReal(r: real) | SqlBlob(bytes: Bytes) {
    function Size(): nat {
      match this
      case SqlText(t) => |t|
      case SqlBlob(b) => |b|
      case _ => 0
    }
  }

  function ToSql(v: GoValue): SqlValue {
    match v
    case Nil => SqlNull
    case Str(t) => SqlText(t)
    case Int(i) => SqlInt(i)
    case Boolean(b) => SqlInt(if b then 1 else 0)
    case Float(r) => SqlReal(r)
    case Blob(b) => SqlBlob(b)
    case NilBlob => SqlNull
    case Time(f) => SqlText(f)
  }

  /** A `driver.NamedValue`; the name is empty for a positional argument. */
  datatype Arg = Arg(name: string, ordinal: int, value: GoValue)

  /** The parameters of a statement in order, each with its name as written, prefix included. */
  type Params = seq<Option<string>>

  /** SQLite gives equal names one index, so no name occurs twice. */
  predicate Distinct(params: Params) {
    forall i, j :: 0 <= i < j < |params| && params[i].Some? ==> params[i] != params[j]
  }

  /** `sqlite3_bind_parameter_index`: the 1-based index, or 0. */
  function Index(params: Params, name: string): (n: nat)
    ensures n <= |params| && (n > 0 ==> params[n - 1] == Some(name))
    ensures n == 0 ==> Some(name) !in params
  {
    if params == [] then 0
    else
      var k := |params| - 1;
      if params[k] == Some(name) then k + 1
      else
        assert params == params[..k] + [params[k]];
        Index(params[..k], name)
  }

  const PREFIXES: seq<string> := [":", "@", "$"]

  /** One row of `bindIndices`: the parameters an argument is bound to, 0 for none. */
  function Targets(params: Params, a: Arg): (t: seq<int>)
    ensures |t| == 3
  {
    if a.name == "" then [a.ordinal, 0, 0] else NamedRow(params, a.name)
  }

  function NamedRow(params: Params, name: string): (t: seq<int>)
    ensures |t| == 3
  {
    [Index(params, PREFIXES[0] + name), Index(params, PREFIXES[1] + name), Index(params, PREFIXES[2] + name)]
  }

  lemma RowOf(params: Params, a: Arg)
    ensures Targets(params, a) == if a.name == "" then [a.ordinal, 0, 0] else NamedRow(params, a.name)
  {
  }

  /** The prepared statement SQLite holds. `limit` is the greatest length of a text or blob. */
  class NativeStmt {
    const params: Params
    const limit: nat
    var bound: seq<SqlValue>

    ghost predicate Valid()
      reads this
    {
      |bound| == |params|
    }

    constructor (params: Params, limit: nat)
      ensures Valid() && this.params == params && this.limit == limit && bound == Unbound(|params|)
    {
      this.params, this.limit := params, limit;
      bound := Unbound(|params|);
    }

    /** `sqlite3_bind_*`. The parameter is released before the length of a value is looked at, so a value that is
        too long leaves it NULL. */
    method BindAt(n: int, v: SqlValue) returns (rv: int)
      requires Valid()
      modifies this
      ensures Valid()
      ensures rv == OK <==> 1 <= n <= |params| && v.Size() <= limit
      ensures bound == Written(old(bound), limit, n, v).at
    {
      if !(1 <= n <= |params|) {
        return RANGE;
      }
      if v.Size() > limit {
        bound := bound[n - 1 := SqlNull];
        return TOOBIG;
      }
      bound := bound[n - 1 := v];
      return OK;
    }

    /** `sqlite3_clear_bindings`. */
    method Clear()
      requires Valid()
      modifies this
      ensures Valid() && bound == Unbound(|params|)
    {
      bound := Unbound(|params|);
    }
  }

  function Unbound(n: nat): (b: seq<SqlValue>)
    ensures |b| == n
  {
    seq(n, _ => SqlNull)
  }

  /** The bindings a statement holds, and whether every write so far was accepted. */
  datatype Bound = Bound(ok: bool, at: seq<SqlValue>)

  /** The bindings after the first `m` writes of a row; a refused write ends them. */
  function BindRow(bound: seq<SqlValue>, limit: nat, row: seq<int>, m: nat, v: SqlValue): (r: Bound)
    requires m <= |row|
    ensures |r.at| == |bound|
  {
    if m == 0 then Bound(true, bound)
    else
      var before := BindRow(bound, limit, row, m - 1, v);
      if !before.ok || row[m - 1] == 0 then before
      else Written(before.at, limit, row[m - 1], v)
  }

  /** One write. */
  function Written(bound: seq<SqlValue>, limit: nat, n: int, v: SqlValue): (r: Bound)
    ensures |r.at| == |bound|
  {
    if !(1 <= n <= |bound|) then Bound(false, bound)
    else if v.Size() > limit then Bound(false, bound[n - 1 := SqlNull])
    else Bound(true, bound[n - 1 := v])
  }

  /** The bindings after the first `k` arguments, on a statement that holds `init`. */
  function BindAll(params: Params, limit: nat, init: seq<SqlValue>, args: seq<Arg>, k: nat): (r: Bound)
    requires k <= |args|
    ensures |r.at| == |init|
  {
    if k == 0 then Bound(true, init)
    else
      var before := BindAll(params, limit, init, args, k - 1);
      if !before.ok then before
      else BindRow(before.at, limit, Targets(params, args[k - 1]), 3, ToSql(args[k - 1].value))
  }

  /** The first use of a statement. */
  function BindFresh(params: Params, limit: nat, args: seq<Arg>): (r: Bound)
    ensures |r.at| == |params|
  {
    BindAll(params, limit, Unbound(|params|), args, |args|)
  }

  /** The inner loop of the first pass over the arguments. */
  method FillNamed(s: NativeStmt, bindIndices: array2<int>, i: nat, name: string)
    requires i < bindIndices.Length0 && bindIndices.Length1 == 3
    modifies bindIndices
    ensures forall m :: 0 <= m < 3 ==> bindIndices[i, m] == Index(s.params, PREFIXES[m] + name)
    ensures forall k, m :: 0 <= k < bindIndices.Length0 && k != i && 0 <= m < 3 ==>
                             bindIndices[k, m] == old(bindIndices[k, m])
  {
    hide Index;
    for j := 0 to 3
      invariant forall m :: 0 <= m < j ==> bindIndices[i, m] == Index(s.params, PREFIXES[m] + name)
      invariant forall k, m :: 0 <= k < bindIndices.Length0 && k != i && 0 <= m < 3 ==>
                                 bindIndices[k, m] == old(bindIndices[k, m])
    {
      bindIndices[i, j] := Index(s.params, PREFIXES[j] + name);
    }
  }

  /** The first loop of `bind`: the index rows, and the ordinals overwritten in place. */
  method FillIndices(s: NativeStmt, args: array<Arg>) returns (bindIndices: array2<int>)
    modifies args
    ensures fresh(bindIndices) && bindIndices.Length0 == args.Length && bindIndices.Length1 == 3
    ensures forall i, j :: 0 <= i < args.Length && 0 <= j < 3 ==>
                             bindIndices[i, j] == Targets(s.params, old(args[i]))[j]
    ensures forall i :: 0 <= i < args.Length ==> args[i] == old(args[i]).(ordinal := Targets(s.params, old(args[i]))[0])
  {
    hide Index, Targets;
    bindIndices := new int[args.Length, 3]((i, j) => 0);
    for i := 0 to args.Length
      invariant forall k, j :: 0 <= k < i && 0 <= j < 3 ==> bindIndices[k, j] == Targets(s.params, old(args[k]))[j]
      invariant forall k, j :: i <= k < args.Length && 0 <= j < 3 ==> bindIndices[k, j] == 0
      invariant forall k :: 0 <= k < i ==> args[k] == old(args[k]).(ordinal := Targets(s.params, old(args[k]))[0])
      invariant forall k :: i <= k < args.Length ==> args[k] == old(args[k])
    {
      var v := args[i];
      assert Targets(s.params, v) == if v.name == "" then [v.ordinal, 0, 0] else NamedRow(s.params, v.name) by {
        RowOf(s.params, v);
      }
      bindIndices[i, 0] := v.ordinal;
      if v.name != "" {
        FillNamed(s, bindIndices, i, v.name);
        args[i] := v.(ordinal := bindIndices[i, 0]);
      }
    }
  }

  /** One turn of the second loop: a value goes to every index of its row. */
  method WriteRow(s: NativeStmt, bindIndices: array2<int>, i: nat, v: SqlValue) returns (ok: bool)
    requires s.Valid() && i < bindIndices.Length0 && bindIndices.Length1 == 3
    modifies s
    ensures s.Valid()
    ensures var row := [bindIndices[i, 0], bindIndices[i, 1], bindIndices[i, 2]];
      var r := BindRow(old(s.bound), s.limit, row, 3, v);
      ok == r.ok && s.bound == r.at
  {
    ghost var row := [bindIndices[i, 0], bindIndices[i, 1], bindIndices[i, 2]];
    for j := 0 to 3
      invariant s.Valid() && BindRow(old(s.bound), s.limit, row, j, v) == Bound(true, s.bound)
    {
      var n := bindIndices[i, j];
      if n == 0 {
        continue;
      }
      var rv := s.BindAt(n, v);
      if rv != OK {
        Refused(old(s.bound), s.limit, row, j + 1, v);
        return false;
      }
    }
    return true;
  }

  predicate ResetOk(rc: int) {
    rc == ROW || rc == OK || rc == DONE
  }

  /** `bind`, on a new statement or one used before: resetting a statement keeps its bindings. `resetRc` is what
      `sqlite3_reset` answers. The ordinals of named arguments are overwritten in place. */
  method Bind(s: NativeStmt, args: array<Arg>, resetRc: int) returns (ok: bool)
    requires s.Valid()
    modifies s, args
    ensures s.Valid()
    ensures resetRc !in {ROW, OK, DONE} ==> !ok && s.bound == old(s.bound) && args[..] == old(args[..])
    ensures resetRc in {ROW, OK, DONE} ==>
      var r := BindAll(s.params, s.limit, old(s.bound), old(args[..]), args.Length);
      && ok == r.ok && s.bound == r.at
      && forall i :: 0 <= i < args.Length ==>
           args[i] == if old(args[i]).name == "" then old(args[i])
                      else old(args[i]).(ordinal := Index(s.params, ":" + old(args[i]).name))
  {
    hide Targets, BindRow, SqlValue.Size, ToSql, Index;
    if resetRc != ROW && resetRc != OK && resetRc != DONE {
      return false;
    }
    ghost var given, init := args[..], s.bound;
    var bindIndices := FillIndices(s, args);
    forall i | 0 <= i < args.Length
      ensures args[i] == if given[i].name == "" then given[i]
                         else given[i].(ordinal := Index(s.params, ":" + given[i].name))
    {
      RowOf(s.params, given[i]);
    }
    for i := 0 to args.Length
      modifies s
      invariant s.Valid() && BindAll(s.params, s.limit, init, given, i) == Bound(true, s.bound)
    {
      ghost var row := Targets(s.params, given[i]);
      assert row == [bindIndices[i, 0], bindIndices[i, 1], bindIndices[i, 2]];
      ok := WriteRow(s, bindIndices, i, ToSql(args[i].value));
      if !ok {
        RefusedAll(s.params, s.limit, init, given, i + 1);
        return false;
      }
    }
    return true;
  }

  /** Once a write is refused, nothing more is written. */
  lemma {:induction false} Refused(bound: seq<SqlValue>, limit: nat, row: seq<int>, m: nat, v: SqlValue)
    requires m <= |row| && !BindRow(bound, limit, row, m, v).ok
    ensures BindRow(bound, limit, row, |row|, v) == BindRow(bound, limit, row, m, v)
    decreases |row| - m
  {
    if m < |row| {
      Refused(bound, limit, row, m + 1, v);
    }
  }

  lemma {:induction false} RefusedAll(params: Params, limit: nat, init: seq<SqlValue>, args: seq<Arg>, k: nat)
    requires k <= |args| && !BindAll(params, limit, init, args, k).ok
    ensures BindAll(params, limit, init, args, |args|) == BindAll(params, limit, init, args, k)
    decreases |args| - k
  {
    if k < |args| {
      RefusedAll(params, limit, init, args, k + 1);
    }
  }

  // ---- Which argument a parameter gets ----

  /** The last of the first `k` arguments that targets parameter `p` (0-based). */
  function LastWriter(params: Params, args: seq<Arg>, k: nat, p: nat): (w: Option<nat>)
    requires k <= |args|
    ensures w.Some? ==> w.value < k && p + 1 in Targets(params, args[w.value])
    ensures w.None? ==> forall i :: 0 <= i < k ==> p + 1 !in Targets(params, args[i])
  {
    if k == 0 then None
    else if p + 1 in Targets(params, args[k - 1]) then Some(k - 1)
    else LastWriter(params, args, k - 1, p)
  }

  lemma {:induction false} RowWrites(bound: seq<SqlValue>, limit: nat, row: seq<int>, m: nat, v: SqlValue, p: nat)
    requires m <= |row| && p < |bound| && BindRow(bound, limit, row, m, v).ok
    ensures BindRow(bound, limit, row, m, v).at[p] == if p + 1 in row[..m] then v else bound[p]
  {
    if m > 0 {
      RowWrites(bound, limit, row, m - 1, v, p);
      assert row[..m] == row[..m - 1] + [row[m - 1]];
    }
  }

  /** Binding in full generality: every parameter holds the value of the last argument that targets it, and what
      it held before if none does. */
  lemma {:induction false} LastWriterWins(
    params: Params, limit: nat, init: seq<SqlValue>, args: seq<Arg>, k: nat, p: nat)
    requires k <= |args| && p < |params| == |init| && BindAll(params, limit, init, args, k).ok
    ensures var w := LastWriter(params, args, k, p);
      BindAll(params, limit, init, args, k).at[p] == if w.Some? then ToSql(args[w.value].value) else init[p]
  {
    hide Index;
    if k > 0 {
      LastWriterWins(params, limit, init, args, k - 1, p);
      var before := BindAll(params, limit, init, args, k - 1).at;
      var row := Targets(params, args[k - 1]);
      RowWrites(before, limit, row, 3, ToSql(args[k - 1].value), p);
      assert row[..3] == row;
    }
  }

  lemma TargetHasName(params: Params, a: Arg, p: nat, n: string, prefix: string)
    requires a.name != "" && p < |params| && prefix in [":", "@", "$"] && params[p] == Some(prefix + n)
    requires p + 1 in Targets(params, a)
    ensures a.name == n
  {
    var i :| 0 <= i < 3 && Targets(params, a)[i] == p + 1;
    assert PREFIXES[i] + a.name == prefix + n;
    assert (PREFIXES[i] + a.name)[1..] == a.name && (prefix + n)[1..] == n;
  }

  /** The parameters `:n`, `@n` and `$n` are the targets of arguments named n and of no other named one. */
  lemma NamedTargets(params: Params, a: Arg, p: nat, n: string, prefix: string)
    requires a.name != "" && Distinct(params)
    requires p < |params| && prefix in [":", "@", "$"] && params[p] == Some(prefix + n)
    ensures p + 1 in Targets(params, a) <==> a.name == n
  {
    if a.name == n {
      var i :| 0 <= i < 3 && PREFIXES[i] == prefix;
      var x := Index(params, prefix + n);
      assert params[x - 1] == params[p];
      assert Targets(params, a)[i] == p + 1;
    }
    if p + 1 in Targets(params, a) {
      TargetHasName(params, a, p, n, prefix);
    }
  }

  /** Named arguments, possibly repeated with one value each: a parameter ends bound to the argument of its
      name, whatever it held before. */
  lemma NamedBinding(
    params: Params, limit: nat, init: seq<SqlValue>, args: seq<Arg>, p: nat, n: string, prefix: string, i: nat)
    requires |init| == |params| && BindAll(params, limit, init, args, |args|).ok && Distinct(params)
    requires forall k :: 0 <= k < |args| ==> args[k].name != ""
    requires forall k, l :: 0 <= k < |args| && 0 <= l < |args| && args[k].name == args[l].name ==>
                              args[k].value == args[l].value
    requires p < |params| && prefix in [":", "@", "$"] && params[p] == Some(prefix + n)
    requires i < |args| && args[i].name == n
    ensures BindAll(params, limit, init, args, |args|).at[p] == ToSql(args[i].value)
  {
    LastWriterWins(params, limit, init, args, |args|, p);
    NamedTargets(params, args[i], p, n, prefix);
    var w := LastWriter(params, args, |args|, p);
    if w.Some? {
      NamedTargets(params, args[w.value], p, n, prefix);
    }
  }

  /** Positional arguments, one per parameter, fill the parameters in order, whatever they held before. */
  lemma PositionalBinding(params: Params, limit: nat, init: seq<SqlValue>, args: seq<Arg>, p: nat)
    requires |args| == |params| == |init| && BindAll(params, limit, init, args, |args|).ok && p < |params|
    requires forall k :: 0 <= k < |args| ==> args[k].name == "" && args[k].ordinal == k + 1
    ensures BindAll(params, limit, init, args, |args|).at[p] == ToSql(args[p].value)
  {
    LastWriterWins(params, limit, init, args, |args|, p);
    assert Targets(params, args[p])[0] == p + 1;
  }

  /** Binding named arguments fails only for a value that is too long. */
  lemma {:induction false} NamedSucceeds(params: Params, limit: nat, init: seq<SqlValue>, args: seq<Arg>, k: nat)
    requires k <= |args| && |init| == |params|
    requires forall i :: 0 <= i < k ==> args[i].name != "" && ToSql(args[i].value).Size() <= limit
    ensures BindAll(params, limit, init, args, k).ok
  {
    hide Index;
    if k > 0 {
      NamedSucceeds(params, limit, init, args, k - 1);
      var before := BindAll(params, limit, init, args, k - 1).at;
      RowSucceeds(before, limit, Targets(params, args[k - 1]), 3, ToSql(args[k - 1].value));
    }
  }

  /** So does binding positional ones, one per place; and the two may be mixed. */
  lemma {:induction false} BindSucceeds(params: Params, limit: nat, init: seq<SqlValue>, args: seq<Arg>, k: nat)
    requires k <= |args| && |init| == |params|
    requires forall i :: 0 <= i < k ==>
               (args[i].name != "" || 0 <= args[i].ordinal <= |params|) && ToSql(args[i].value).Size() <= limit
    ensures BindAll(params, limit, init, args, k).ok
  {
    hide Index;
    if k > 0 {
      BindSucceeds(params, limit, init, args, k - 1);
      var before := BindAll(params, limit, init, args, k - 1).at;
      RowSucceeds(before, limit, Targets(params, args[k - 1]), 3, ToSql(args[k - 1].value));
    }
  }

  lemma {:induction false} RowSucceeds(bound: seq<SqlValue>, limit: nat, row: seq<int>, m: nat, v: SqlValue)
    requires m <= |row| && v.Size() <= limit && forall i :: 0 <= i < m ==> 0 <= row[i] <= |bound|
    ensures BindRow(bound, limit, row, m, v).ok
  {
    if m > 0 {
      RowSucceeds(bound, limit, row, m - 1, v);
    }
  }
}
