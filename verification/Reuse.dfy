/** A prepared statement used many times: `SQLiteStmt.execSync` and `SQLiteStmt.query` bind, and resetting a
    statement keeps its bindings, so what one use leaves behind is there for the next. */
module Reuse {
  import opened Text
  import opened Codes
  import opened Binder

  datatype Stepped = StepOk(rowid: int, changes: int) | StepErr(code: int)

  /** `execSync`: bind, then step. None stands for an error of the binding. Both error paths clear the bindings.
      `seen` is what the statement ran with. */
  method ExecSync(s: NativeStmt, args: array<Arg>, resetRc: int, step: seq<SqlValue> -> Stepped)
    returns (r: Option<Stepped>, ghost seen: seq<SqlValue>)
    requires s.Valid()
    modifies s, args
    ensures s.Valid()
    ensures var given := old(args[..]);
      var b := Try(s.params, s.limit, old(s.bound), given, resetRc);
      && seen == b.at && r == (if b.ok then Some(step(b.at)) else None)
      && s.bound == AfterUse(s.params, s.limit, old(s.bound), ExecUse(given, resetRc, r.Some? && r.value.StepOk?))
    ensures r.Some? && r.value.StepOk? ==> s.bound == seen
    ensures !(r.Some? && r.value.StepOk?) ==> forall p :: 0 <= p < |s.bound| ==> s.bound[p] == SqlNull
  {
    hide BindAll;
    ghost var given := args[..];
    assert given[..] == given;
    var ok := Bind(s, args, resetRc);
    seen := s.bound;
    if !ok {
      s.Clear();
      return None, seen;
    }
    var rv := step(s.bound);
    if rv.StepErr? {
      s.Clear();
    }
    return Some(rv), seen;
  }

  /** `SQLiteStmt.query` up to the rows it returns. A binding that fails half way is left as it is. */
  method Query(s: NativeStmt, args: array<Arg>, resetRc: int) returns (ok: bool)
    requires s.Valid()
    modifies s, args
    ensures s.Valid()
    ensures var given := old(args[..]);
      && ok == Try(s.params, s.limit, old(s.bound), given, resetRc).ok
      && s.bound == AfterUse(s.params, s.limit, old(s.bound), QueryUse(given, resetRc))
      && s.bound == if resetRc in {ROW, OK, DONE}
                    then BindAll(s.params, s.limit, old(s.bound), given, |given|).at else old(s.bound)
  {
    hide BindAll;
    ok := Bind(s, args, resetRc);
  }

  // ---- One use ----

  datatype Use =
    | ExecUse(args: seq<Arg>, resetRc: int, stepped: bool)
    | QueryUse(args: seq<Arg>, resetRc: int)

  /** What `bind` leaves, reset included. */
  function Try(params: Params, limit: nat, bound: seq<SqlValue>, args: seq<Arg>, resetRc: int): (r: Bound)
    ensures |r.at| == |bound|
  {
    if ResetOk(resetRc) then BindAll(params, limit, bound, args, |args|) else Bound(false, bound)
  }

  function AfterUse(params: Params, limit: nat, bound: seq<SqlValue>, u: Use): (after: seq<SqlValue>)
    requires |bound| == |params|
    ensures |after| == |params|
  {
    var b := Try(params, limit, bound, u.args, u.resetRc);
    if u.ExecUse? && !(b.ok && u.stepped) then Unbound(|params|) else b.at
  }

  /** The statement after any number of uses. */
  function AfterAll(params: Params, limit: nat, uses: seq<Use>): (after: seq<SqlValue>)
    ensures |after| == |params|
  {
    if uses == [] then Unbound(|params|)
    else
      var n := |uses| - 1;
      AfterUse(params, limit, AfterAll(params, limit, uses[..n]), uses[n])
  }

  // ---- What an earlier use leaves behind ----

  lemma {:induction false} RowOkAlike(
    a: seq<SqlValue>, b: seq<SqlValue>, limit: nat, row: seq<int>, m: nat, v: SqlValue)
    requires m <= |row| && |a| == |b|
    ensures BindRow(a, limit, row, m, v).ok == BindRow(b, limit, row, m, v).ok
  {
    if m > 0 {
      RowOkAlike(a, b, limit, row, m - 1, v);
    }
  }

  /** Whether binding succeeds does not depend on what the statement holds. */
  lemma {:induction false} OkAlike(
    params: Params, limit: nat, a: seq<SqlValue>, b: seq<SqlValue>, args: seq<Arg>, k: nat)
    requires k <= |args| && |a| == |b|
    ensures BindAll(params, limit, a, args, k).ok == BindAll(params, limit, b, args, k).ok
  {
    hide Targets, BindRow;
    if k > 0 {
      OkAlike(params, limit, a, b, args, k - 1);
      var a' := BindAll(params, limit, a, args, k - 1).at;
      var b' := BindAll(params, limit, b, args, k - 1).at;
      RowOkAlike(a', b', limit, Targets(params, args[k - 1]), 3, ToSql(args[k - 1].value));
    }
  }

  /** A stale value survives exactly if no argument targets its parameter: only then does the new binding differ
      from that of a fresh statement, and only where the old value is not NULL. */
  lemma StaleIff(params: Params, limit: nat, init: seq<SqlValue>, args: seq<Arg>, p: nat)
    requires p < |params| == |init| && BindAll(params, limit, init, args, |args|).ok
    ensures BindFresh(params, limit, args).ok
    ensures var now := BindAll(params, limit, init, args, |args|).at[p];
      now != BindFresh(params, limit, args).at[p] <==>
      LastWriter(params, args, |args|, p).None? && init[p] != SqlNull
  {
    hide BindAll;
    OkAlike(params, limit, init, Unbound(|params|), args, |args|);
    LastWriterWins(params, limit, init, args, |args|, p);
    LastWriterWins(params, limit, Unbound(|params|), args, |args|, p);
  }

  // ---- The writes of a use, one after the other ----

  /** A value for the parameter with the 1-based number `n`. */
  datatype Write = Write(n: int, v: SqlValue)

  predicate Accepted(w: Write, size: nat, limit: nat) {
    1 <= w.n <= size && w.v.Size() <= limit
  }

  function RowWritesOf(row: seq<int>, m: nat, v: SqlValue): seq<Write>
    requires m <= |row|
  {
    if m == 0 then []
    else RowWritesOf(row, m - 1, v) + if row[m - 1] == 0 then [] else [Write(row[m - 1], v)]
  }

  /** Every write the first `k` arguments ask for, in order. */
  function Writes(params: Params, args: seq<Arg>, k: nat): seq<Write>
    requires k <= |args|
  {
    if k == 0 then []
    else Writes(params, args, k - 1) + RowWritesOf(Targets(params, args[k - 1]), 3, ToSql(args[k - 1].value))
  }

  predicate AllAccepted(ws: seq<Write>, size: nat, limit: nat) {
    forall i :: 0 <= i < |ws| ==> Accepted(ws[i], size, limit)
  }

  /** The writes before the first refused one. If that one was refused for its length, its parameter is made
      NULL. */
  function Effective(ws: seq<Write>, size: nat, limit: nat): seq<Write> {
    if ws == [] then []
    else if Accepted(ws[0], size, limit) then [ws[0]] + Effective(ws[1..], size, limit)
    else if 1 <= ws[0].n <= size then [Write(ws[0].n, SqlNull)]
    else []
  }

  /** The value of the last write to parameter `p` (0-based). */
  function LastTo(ws: seq<Write>, p: nat): Option<SqlValue> {
    if ws == [] then None
    else if ws[|ws| - 1].n == p + 1 then Some(ws[|ws| - 1].v)
    else LastTo(ws[..|ws| - 1], p)
  }

  function Held(ws: seq<Write>, p: nat, before: SqlValue): SqlValue {
    match LastTo(ws, p)
    case Some(v) => v
    case None => before
  }

  lemma {:induction false} HeldAppends(xs: seq<Write>, ys: seq<Write>, p: nat, before: SqlValue)
    ensures Held(xs + ys, p, before) == Held(ys, p, Held(xs, p, before))
  {
    if ys == [] {
      assert xs + ys == xs;
    } else {
      var n := |ys| - 1;
      assert (xs + ys)[..|xs + ys| - 1] == xs + ys[..n];
      HeldAppends(xs, ys[..n], p, before);
    }
  }

  lemma AcceptedAppends(xs: seq<Write>, ys: seq<Write>, size: nat, limit: nat)
    ensures AllAccepted(xs + ys, size, limit) <==> AllAccepted(xs, size, limit) && AllAccepted(ys, size, limit)
  {
    hide Accepted;
    if AllAccepted(xs + ys, size, limit) {
      assert forall i :: 0 <= i < |xs| ==> (xs + ys)[i] == xs[i];
      assert forall i :: 0 <= i < |ys| ==> (xs + ys)[|xs| + i] == ys[i];
    }
  }

  lemma {:induction false} EffectiveAppends(xs: seq<Write>, ys: seq<Write>, size: nat, limit: nat)
    ensures Effective(xs + ys, size, limit)
         == if AllAccepted(xs, size, limit) then xs + Effective(ys, size, limit) else Effective(xs, size, limit)
  {
    hide Accepted, AllAccepted;
    if xs == [] {
      NoWrites(size, limit, 0, SqlNull);
      assert xs + ys == ys && xs + Effective(ys, size, limit) == Effective(ys, size, limit);
    } else {
      assert xs == [xs[0]] + xs[1..] && (xs + ys)[1..] == xs[1..] + ys;
      AcceptedAppends([xs[0]], xs[1..], size, limit);
      OneAccepted(xs[0], size, limit);
      EffectiveAppends(xs[1..], ys, size, limit);
    }
  }

  lemma EffectiveAll(xs: seq<Write>, size: nat, limit: nat)
    ensures AllAccepted(xs, size, limit) ==> Effective(xs, size, limit) == xs
  {
    hide AllAccepted;
    EffectiveAppends(xs, [], size, limit);
    NoWrites(size, limit, 0, SqlNull);
    assert xs + [] == xs;
  }

  lemma OneAccepted(w: Write, size: nat, limit: nat)
    ensures AllAccepted([w], size, limit) <==> Accepted(w, size, limit)
  {
    assert [w][0] == w;
  }

  lemma {:induction false} RowMeans(bound: seq<SqlValue>, limit: nat, row: seq<int>, m: nat, v: SqlValue, p: nat)
    requires m <= |row| && p < |bound|
    ensures var ws := RowWritesOf(row, m, v);
      var b := BindRow(bound, limit, row, m, v);
      && (b.ok <==> AllAccepted(ws, |bound|, limit))
      && b.at[p] == Held(Effective(ws, |bound|, limit), p, bound[p])
  {
    hide SqlValue.Size, Effective, Held, AllAccepted;
    if m == 0 {
      NoWrites(|bound|, limit, p, bound[p]);
    } else {
      RowMeans(bound, limit, row, m - 1, v, p);
      var xs := RowWritesOf(row, m - 1, v);
      if row[m - 1] == 0 {
        assert xs + [] == xs;
      } else {
        var w := Write(row[m - 1], v);
        var held := Held(Effective(xs, |bound|, limit), p, bound[p]);
        EffectiveAppends(xs, [w], |bound|, limit);
        EffectiveAll(xs, |bound|, limit);
        AcceptedAppends(xs, [w], |bound|, limit);
        HeldAppends(xs, Effective([w], |bound|, limit), p, bound[p]);
        OneWrite(w, |bound|, limit, p, held);
      }
    }
  }

  lemma OneWrite(w: Write, size: nat, limit: nat, p: nat, before: SqlValue)
    requires p < size
    ensures AllAccepted([w], size, limit) <==> Accepted(w, size, limit)
    ensures Held(Effective([w], size, limit), p, before)
         == if w.n != p + 1 then before else if Accepted(w, size, limit) then w.v else SqlNull
  {
    hide Accepted, Held;
    OneAccepted(w, size, limit);
    assert [w][1..] == [] && [w] + [] == [w];
    OneHeld(w, p, before);
    OneHeld(Write(w.n, SqlNull), p, before);
    NoWrites(size, limit, p, before);
  }

  lemma OneHeld(w: Write, p: nat, before: SqlValue)
    ensures Held([w], p, before) == if w.n == p + 1 then w.v else before
  {
    assert [w][..0] == [];
    assert LastTo([], p) == None;
  }

  /** Binding, refused or not: a parameter holds the last value written to it before the first refused write, and
      what it held before if there is none; a write refused for the length of its value makes it NULL. */
  lemma {:induction false} BindMeans(
    params: Params, limit: nat, init: seq<SqlValue>, args: seq<Arg>, k: nat, p: nat)
    requires k <= |args| && p < |params| == |init|
    ensures var ws := Writes(params, args, k);
      var b := BindAll(params, limit, init, args, k);
      && (b.ok <==> AllAccepted(ws, |params|, limit))
      && b.at[p] == Held(Effective(ws, |params|, limit), p, init[p])
  {
    hide Targets, BindRow, RowWritesOf, Held, Effective, AllAccepted;
    if k == 0 {
      NoWrites(|params|, limit, p, init[p]);
    } else {
      BindMeans(params, limit, init, args, k - 1, p);
      var xs := Writes(params, args, k - 1);
      var before := BindAll(params, limit, init, args, k - 1);
      var row, v := Targets(params, args[k - 1]), ToSql(args[k - 1].value);
      var ys := RowWritesOf(row, 3, v);
      AcceptedAppends(xs, ys, |params|, limit);
      EffectiveAll(xs, |params|, limit);
      EffectiveAppends(xs, ys, |params|, limit);
      if before.ok {
        RowMeans(before.at, limit, row, 3, v, p);
        HeldAppends(xs, Effective(ys, |params|, limit), p, init[p]);
      }
    }
  }

  lemma NoWrites(size: nat, limit: nat, p: nat, before: SqlValue)
    ensures Effective([], size, limit) == [] && AllAccepted([], size, limit)
    ensures Held([], p, before) == before
  {
  }

  // ---- Whole histories ----

  /** The writes a use gets through, a NULL for a value that is too long included. */
  function Through(params: Params, limit: nat, u: Use): seq<Write> {
    if ResetOk(u.resetRc) then Effective(Writes(params, u.args, |u.args|), |params|, limit) else []
  }

  /** An exec that fails, be it at the reset, in the binding or at the step. */
  predicate Clears(params: Params, limit: nat, u: Use) {
    u.ExecUse? && !(u.stepped && ResetOk(u.resetRc) && AllAccepted(Writes(params, u.args, |u.args|), |params|, limit))
  }

  /** The writes since the statement was prepared or last cleared. */
  function Since(params: Params, limit: nat, uses: seq<Use>): seq<Write> {
    if uses == [] then []
    else
      var n := |uses| - 1;
      if Clears(params, limit, uses[n]) then []
      else Since(params, limit, uses[..n]) + Through(params, limit, uses[n])
  }

  /** After any history of execs and queries, successful or not, a parameter holds the last value written to it
      since the last exec that failed, and NULL if there is none. */
  lemma {:induction false} HistoryBinding(params: Params, limit: nat, uses: seq<Use>, p: nat)
    requires p < |params|
    ensures AfterAll(params, limit, uses)[p] == Held(Since(params, limit, uses), p, SqlNull)
  {
    hide BindAll, Writes, Held;
    if uses == [] {
      NoWrites(|params|, limit, p, SqlNull);
    } else {
      var n := |uses| - 1;
      var u := uses[n];
      HistoryBinding(params, limit, uses[..n], p);
      var before := AfterAll(params, limit, uses[..n]);
      BindMeans(params, limit, before, u.args, |u.args|, p);
      NoWrites(|params|, limit, p, SqlNull);
      NoWrites(|params|, limit, p, before[p]);
      HeldAppends(Since(params, limit, uses[..n]), Through(params, limit, u), p, SqlNull);
    }
  }

  const AB: Params := [Some(":a"), Some(":b")]

  /** So a second exec can see a value of the first: `:a` and `:b` are bound to 1 and 2, then `:a` to 3, beside an
      argument x that no parameter is named after. */
  lemma StaleValue()
    ensures var first := ExecUse([Arg("a", 1, GoValue.Int(1)), Arg("b", 2, GoValue.Int(2))], OK, true);
      var second := ExecUse([Arg("a", 1, GoValue.Int(3)), Arg("x", 2, GoValue.Int(4))], OK, true);
      AfterAll(AB, 10, [first, second]) == [SqlInt(3), SqlInt(2)]
  {
    hide BindAll;
    var one := [Arg("a", 1, GoValue.Int(1)), Arg("b", 2, GoValue.Int(2))];
    var two := [Arg("a", 1, GoValue.Int(3)), Arg("x", 2, GoValue.Int(4))];
    var first, second := ExecUse(one, OK, true), ExecUse(two, OK, true);
    assert [first, second][..1] == [first] && [first][..0] == [];
    BindsTo(Unbound(2), one);
    assert AfterAll(AB, 10, [first]) == AfterUse(AB, 10, Unbound(2), first) == [SqlInt(1), SqlInt(2)];
    BindsTo([SqlInt(1), SqlInt(2)], two);
  }

  lemma BindsTo(init: seq<SqlValue>, args: seq<Arg>)
    requires |init| == 2 == |args| && args[0].name == "a" && args[0].value.Int?
    requires args[1].value.Int? && (args[1].name == "b" || args[1].name == "x")
    ensures BindAll(AB, 10, init, args, 2)
         == Bound(true, [SqlInt(args[0].value.i), if args[1].name == "b" then SqlInt(args[1].value.i) else init[1]])
  {
    hide Targets, BindAll;
    NamedSucceeds(AB, 10, init, args, 2);
    LastWriterWins(AB, 10, init, args, 2, 0);
    LastWriterWins(AB, 10, init, args, 2, 1);
    TargetsAB(args[0]);
    TargetsAB(args[1]);
  }

  lemma TargetsAB(a: Arg)
    requires a.name != ""
    ensures 1 in Targets(AB, a) <==> a.name == "a"
    ensures 2 in Targets(AB, a) <==> a.name == "b"
  {
    assert ":" + "a" == ":a" && ":" + "b" == ":b";
    NamedTargets(AB, a, 0, "a", ":");
    NamedTargets(AB, a, 1, "b", ":");
  }
}
