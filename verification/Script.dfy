/** `SQLiteConn.exec`: a script of several statements is run piece by piece. */
module Script {
  import opened Text
  import opened Codes
  import opened Binder
  import opened Reuse

  /** What `prepare` makes of a text: an error, or one statement (none for white space and comments) and
      the trimmed text behind it. */
  datatype Prep = PrepError(code: int) | Piece(params: Option<Params>, tail: string)

  /** SQLite as seen by one run: what it answers for the j-th piece, and the greatest length of a value. */
  datatype Engine = Engine(prepare: (nat, string) -> Prep, step: (nat, seq<SqlValue>) -> Stepped, limit: nat)

  /** The tail SQLite returns is shorter than the text it was given. */
  ghost predicate Shortens(e: Engine) {
    forall j: nat, q: string :: e.prepare(j, q).Piece? && e.prepare(j, q).tail != "" ==> |e.prepare(j, q).tail| < |q|
  }

  datatype Error = PrepareFailed(code: int) | NotEnoughArgs(want: nat, got: nat) | BindFailed | StepFailed(code: int)

  datatype Outcome = Done(id: int, changes: int) | Failed(error: Error)

  /** A statement that was bound and stepped: the number of its piece and its bindings. */
  datatype Ran = Ran(piece: nat, bound: seq<SqlValue>)

  // ---- The arguments of one statement ----

  /** The append loop over the first `k` arguments. */
  function NamedOutside(args: seq<Arg>, start: nat, na: nat, k: nat): seq<Arg>
    requires k <= |args|
  {
    if k == 0 then []
    else
      var before := NamedOutside(args, start, na, k - 1);
      if (k - 1 < start || k - 1 >= na) && args[k - 1].name != "" then before + [args[k - 1]] else before
  }

  function Renumber(args: seq<Arg>): (r: seq<Arg>)
    ensures |r| == |args|
    ensures forall i :: 0 <= i < |r| ==> r[i] == args[i].(ordinal := i + 1)
  {
    seq(|args|, i requires 0 <= i < |args| => args[i].(ordinal := i + 1))
  }

  /** The arguments handed to a statement with `na` parameters when `start` are used up. */
  function StmtArgs(args: seq<Arg>, start: nat, na: nat): seq<Arg>
    requires start + na <= |args|
  {
    Renumber(args[start..start + na] + NamedOutside(args, start, na, |args|))
  }

  method BuildArgs(args: seq<Arg>, start: nat, na: nat) returns (stmtArgs: array<Arg>)
    requires start + na <= |args|
    ensures fresh(stmtArgs) && stmtArgs[..] == StmtArgs(args, start, na)
  {
    var list := args[start..start + na];
    for i := 0 to |args|
      invariant list == args[start..start + na] + NamedOutside(args, start, na, i)
    {
      if (i < start || i >= na) && args[i].name != "" {
        list := list + [args[i]];
      }
    }
    stmtArgs := new Arg[|list|](i requires 0 <= i < |list| => list[i]);
    for i := 0 to |list|
      invariant forall k :: 0 <= k < i ==> stmtArgs[k] == list[k].(ordinal := k + 1)
      invariant forall k :: i <= k < |list| ==> stmtArgs[k] == list[k]
    {
      stmtArgs[i] := stmtArgs[i].(ordinal := i + 1);
    }
  }

  // ---- The run ----

  /** What one statement answers, and whether it ran. */
  datatype One = One(outcome: Outcome, ran: seq<Ran>)

  /** The statement of piece `j`, with `start` arguments used up. */
  function RunOne(e: Engine, args: seq<Arg>, params: Params, start: nat, j: nat): (r: One)
    requires start <= |args|
    ensures r.outcome.Done? ==> start + |params| <= |args|
    ensures r.outcome.Failed? ==> !r.outcome.error.PrepareFailed?
  {
    var na := |params|;
    if |args| - start < na then One(Failed(NotEnoughArgs(na, |args|)), [])
    else
      var given := StmtArgs(args, start, na);
      var bound := BindFresh(params, e.limit, given);
      if !bound.ok then One(Failed(BindFailed), [])
      else
        match e.step(j, bound.at)
        case StepErr(code) => One(Failed(StepFailed(code)), [Ran(j, bound.at)])
        case StepOk(id, changes) => One(Done(id, changes), [Ran(j, bound.at)])
  }

  datatype Result = Result(outcome: Outcome, ran: seq<Ran>, stop: nat)

  /** The run from piece `j` on, with `start` arguments used up. `stop` is the piece it ended at. */
  ghost function Exec(e: Engine, args: seq<Arg>, query: string, start: nat, j: nat): (r: Result)
    requires Shortens(e) && start <= |args|
    decreases |query|
  {
    match e.prepare(j, query)
    case PrepError(code) => Result(Failed(PrepareFailed(code)), [], j)
    case Piece(None, tail) =>
      if tail == "" then Result(Done(0, 0), [], j) else Exec(e, args, tail, start, j + 1)
    case Piece(Some(params), tail) =>
      var one := RunOne(e, args, params, start, j);
      if one.outcome.Failed? || tail == "" then Result(one.outcome, one.ran, j)
      else
        var rest := Exec(e, args, tail, start + |params|, j + 1);
        Result(rest.outcome, one.ran + rest.ran, rest.stop)
  }

  /** An `SQLiteStmt`; the native statement is absent for a piece without a statement. */
  class Stmt {
    const native: NativeStmt?
    const tail: string

    constructor (native: NativeStmt?, tail: string)
      ensures this.native == native && this.tail == tail
    {
      this.native, this.tail := native, tail;
    }
  }

  /** The connection, with the statements it has prepared and not closed yet. */
  class Conn {
    ghost var live: set<Stmt>
    ghost var prepared: nat

    constructor ()
      ensures live == {} && prepared == 0
    {
      live, prepared := {}, 0;
    }

    method Prepare(e: Engine, j: nat, query: string) returns (s: Stmt?, code: int)
      modifies this
      ensures match e.prepare(j, query)
        case PrepError(c) => s == null && code == c && live == old(live) && prepared == old(prepared)
        case Piece(params, tail) =>
          && s != null && fresh(s) && s.tail == tail && live == old(live) + {s} && prepared == old(prepared) + 1
          && (params.None? <==> s.native == null)
          && (s.native != null ==>
                && fresh(s.native) && s.native.Valid() && s.native.params == params.value
                && s.native.limit == e.limit && s.native.bound == Unbound(|params.value|))
    {
      match e.prepare(j, query)
      case PrepError(c) => return null, c;
      case Piece(None, tail) =>
        s := new Stmt(null, tail);
        live, prepared, code := live + {s}, prepared + 1, OK;
      case Piece(Some(params), tail) =>
        var native := new NativeStmt(params, e.limit);
        s := new Stmt(native, tail);
        live, prepared, code := live + {s}, prepared + 1, OK;
    }

    ghost method Close(s: Stmt)
      requires s in live
      modifies this
      ensures live == old(live) - {s} && prepared == old(prepared)
    {
      live := live - {s};
    }
  }

  /** The part of `exec` that handles one statement. On every error path it closes the statement. */
  method RunStatement(c: Conn, e: Engine, j: nat, s: Stmt, args: seq<Arg>, start: nat)
    returns (outcome: Outcome, ghost ran: seq<Ran>)
    requires s in c.live && s.native != null && start <= |args|
    requires s.native.Valid() && s.native.bound == Unbound(|s.native.params|) && s.native.limit == e.limit
    modifies c, s.native
    ensures RunOne(e, args, s.native.params, start, j) == One(outcome, ran)
    ensures c.live == (if outcome.Failed? then old(c.live) - {s} else old(c.live)) && c.prepared == old(c.prepared)
  {
    hide StmtArgs, BindAll, Unbound;
    ran := [];
    var na := |s.native.params|;
    if |args| - start < na {
      c.Close(s);
      return Failed(NotEnoughArgs(na, |args|)), ran;
    }
    var stmtArgs := BuildArgs(args, start, na);
    var r, seen := ExecSync(s.native, stmtArgs, OK, bound => e.step(j, bound));
    if r.None? {
      c.Close(s);
      return Failed(BindFailed), ran;
    }
    ran := [Ran(j, seen)];
    if r.value.StepErr? {
      c.Close(s);
      return Failed(StepFailed(r.value.code)), ran;
    }
    return Done(r.value.rowid, r.value.changes), ran;
  }

  /** `exec`. It terminates, answers what `Exec` says, and has closed every statement it prepared,
      whichever way it returns. */
  method ExecScript(c: Conn, e: Engine, query: string, args: seq<Arg>) returns (outcome: Outcome, ghost ran: seq<Ran>)
    requires Shortens(e)
    modifies c
    ensures var r := Exec(e, args, query, 0, 0);
      && outcome == r.outcome && ran == r.ran
      && c.live == old(c.live)
      && c.prepared == old(c.prepared) + r.stop + if r.outcome.Failed? && r.outcome.error.PrepareFailed? then 0 else 1
  {
    hide RunOne, Unbound;
    ghost var whole := Exec(e, args, query, 0, 0);
    var text := query;
    var start: nat, j: nat := 0, 0;
    ran := [];
    while true
      invariant start <= |args|
      invariant var r := Exec(e, args, text, start, j);
        whole.outcome == r.outcome && whole.ran == ran + r.ran && whole.stop == r.stop
      invariant c.live == old(c.live) && c.prepared == old(c.prepared) + j
      decreases |text|
    {
      var s, code := c.Prepare(e, j, text);
      if s == null {
        return Failed(PrepareFailed(code)), ran;
      }
      var res: Option<Outcome> := None;
      if s.native != null {
        ghost var one;
        outcome, one := RunStatement(c, e, j, s, args, start);
        ran := ran + one;
        if outcome.Failed? {
          return;
        }
        res := Some(outcome);
        start := start + |s.native.params|;
      }
      var tail := s.tail;
      c.Close(s);
      if tail == "" {
        return if res.Some? then res.value else Done(0, 0), ran;
      }
      text, j := tail, j + 1;
    }
  }

  // ---- What a run means ----

  /** The script as SQLite cuts it, up to its last piece or the first one that does not prepare. */
  ghost function Pieces(e: Engine, query: string, j: nat): (ps: seq<Prep>)
    requires Shortens(e)
    ensures |ps| > 0
    decreases |query|
  {
    var p := e.prepare(j, query);
    if p.Piece? && p.tail != "" then [p] + Pieces(e, p.tail, j + 1) else [p]
  }

  function Count(p: Prep): nat {
    if p.Piece? && p.params.Some? then |p.params.value| else 0
  }

  /** How many arguments the first `k` pieces use. */
  function Offset(ps: seq<Prep>, k: nat): nat
    requires k <= |ps|
  {
    if k == 0 then 0 else Offset(ps, k - 1) + Count(ps[k - 1])
  }

  lemma {:induction false} OffsetCons(p: Prep, ps: seq<Prep>, k: nat)
    requires k <= |ps|
    ensures Offset([p] + ps, k + 1) == Count(p) + Offset(ps, k)
  {
    if k > 0 {
      OffsetCons(p, ps, k - 1);
    }
  }

  /** The bindings a piece must run with when `start` arguments are used up before it. */
  ghost predicate RunsWith(e: Engine, args: seq<Arg>, p: Prep, start: nat, bound: seq<SqlValue>) {
    && p.Piece? && p.params.Some? && start + Count(p) <= |args|
    && var given := StmtArgs(args, start, Count(p));
       BindFresh(p.params.value, e.limit, given) == Bound(true, bound)
  }

  /** What holds of a run over the pieces `ps`, the first of them numbered `j`, with `start` arguments used
      up: the pieces before the last one reached found enough arguments; the run fails for lack of them
      exactly if the last one did not; every statement that ran got the arguments behind those of the
      pieces before it. */
  ghost predicate Consumes(e: Engine, args: seq<Arg>, ps: seq<Prep>, start: nat, j: nat, r: Result) {
    && j <= r.stop < j + |ps|
    && (forall k :: 0 < k <= r.stop - j ==> start + Offset(ps, k) <= |args|)
    && (r.outcome.Failed? && r.outcome.error.NotEnoughArgs? <==> start + Offset(ps, r.stop - j + 1) > |args|)
    && (forall m :: 0 <= m < |r.ran| ==>
          && j <= r.ran[m].piece <= r.stop
          && RunsWith(e, args, ps[r.ran[m].piece - j], start + Offset(ps, r.ran[m].piece - j), r.ran[m].bound))
  }

  lemma ConsumesCons(
    e: Engine, args: seq<Arg>, p: Prep, ps: seq<Prep>, start: nat, j: nat, first: seq<Ran>, rest: Result)
    requires start + Count(p) <= |args| && Consumes(e, args, ps, start + Count(p), j + 1, rest)
    requires forall m :: 0 <= m < |first| ==> first[m].piece == j && RunsWith(e, args, p, start, first[m].bound)
    ensures Consumes(e, args, [p] + ps, start, j, Result(rest.outcome, first + rest.ran, rest.stop))
  {
    hide RunsWith, Count;
    forall k | 0 <= k <= |ps| ensures Offset([p] + ps, k + 1) == Count(p) + Offset(ps, k) {
      OffsetCons(p, ps, k);
    }
    var r := Result(rest.outcome, first + rest.ran, rest.stop);
    forall k | 0 < k <= r.stop - j ensures start + Offset([p] + ps, k) <= |args| {
      var k' := k - 1;
      assert Offset([p] + ps, k' + 1) == Count(p) + Offset(ps, k');
    }
    forall m | 0 <= m < |r.ran|
      ensures j <= r.ran[m].piece <= r.stop
      ensures var k := r.ran[m].piece - j;
        RunsWith(e, args, ([p] + ps)[k], start + Offset([p] + ps, k), r.ran[m].bound)
    {
      if m < |first| {
        assert r.ran[m] == first[m];
        assert Offset([p] + ps, 0) == 0;
      } else {
        assert r.ran[m] == rest.ran[m - |first|];
        var k := r.ran[m].piece - j - 1;
        assert ([p] + ps)[k + 1] == ps[k];
        assert Offset([p] + ps, k + 1) == Count(p) + Offset(ps, k);
      }
    }
  }

  lemma RunOneMeans(e: Engine, args: seq<Arg>, p: Prep, start: nat, j: nat)
    requires start <= |args| && p.Piece? && p.params.Some?
    ensures var one := RunOne(e, args, p.params.value, start, j);
      && (one.outcome.Failed? && one.outcome.error.NotEnoughArgs? <==> start + Count(p) > |args|)
      && forall m :: 0 <= m < |one.ran| ==> one.ran[m].piece == j && RunsWith(e, args, p, start, one.ran[m].bound)
  {
    hide StmtArgs, BindFresh;
  }

  /** For every script and every argument list. */
  lemma {:induction false} ExecConsumes(e: Engine, args: seq<Arg>, query: string, start: nat, j: nat)
    requires Shortens(e) && start <= |args|
    ensures Consumes(e, args, Pieces(e, query, j), start, j, Exec(e, args, query, start, j))
    decreases |query|
  {
    hide RunOne, RunsWith;
    var p := e.prepare(j, query);
    OffsetOne(Pieces(e, query, j));
    if p.Piece? && p.params.Some? {
      RunOneMeans(e, args, p, start, j);
    }
    if p.Piece? && p.tail != "" {
      var rest := Pieces(e, p.tail, j + 1);
      if p.params.None? {
        ExecConsumes(e, args, p.tail, start, j + 1);
        var r := Exec(e, args, p.tail, start, j + 1);
        ConsumesCons(e, args, p, rest, start, j, [], r);
        assert [] + r.ran == r.ran;
      } else {
        var one := RunOne(e, args, p.params.value, start, j);
        if one.outcome.Done? {
          ExecConsumes(e, args, p.tail, start + Count(p), j + 1);
          ConsumesCons(e, args, p, rest, start, j, one.ran, Exec(e, args, p.tail, start + Count(p), j + 1));
        }
      }
    }
  }

  lemma OffsetOne(ps: seq<Prep>)
    requires ps != []
    ensures Offset(ps, 1) == Count(ps[0]) && Offset(ps, 0) == 0
  {
  }

  // ---- How a run ends ----

  /** Piece `k` went through: it has no statement, or its statement was bound, ran, and answered without an error. */
  ghost predicate WentThrough(e: Engine, args: seq<Arg>, p: Prep, start: nat, k: nat, ran: seq<Ran>) {
    && p.Piece?
    && (p.params.Some? ==>
          exists bound :: Ran(k, bound) in ran && RunsWith(e, args, p, start, bound) && e.step(k, bound).StepOk?)
  }

  /** How the run answers at the piece it stops at: with the error of preparing it, for lack of arguments, with a
      refused binding, or with what the step answered; without an error only at the last piece. */
  ghost predicate EndsWith(e: Engine, args: seq<Arg>, p: Prep, start: nat, k: nat, last: bool, r: Result) {
    match p
    case PrepError(code) => r.outcome == Failed(PrepareFailed(code))
    case Piece(None, _) => last && r.outcome == Done(0, 0)
    case Piece(Some(params), _) =>
      if start + |params| > |args| then r.outcome == Failed(NotEnoughArgs(|params|, |args|))
      else if !BindFresh(params, e.limit, StmtArgs(args, start, |params|)).ok then r.outcome == Failed(BindFailed)
      else
        && r.ran != [] && var x := r.ran[|r.ran| - 1];
           && x.piece == k && RunsWith(e, args, p, start, x.bound)
           && match e.step(k, x.bound)
              case StepErr(code) => r.outcome == Failed(StepFailed(code))
              case StepOk(id, changes) => last && r.outcome == Done(id, changes)
  }

  ghost predicate Answers(e: Engine, args: seq<Arg>, ps: seq<Prep>, start: nat, j: nat, r: Result) {
    && j <= r.stop < j + |ps|
    && (forall m, n :: 0 <= m < n < |r.ran| ==> r.ran[m].piece < r.ran[n].piece)
    && (forall m :: 0 <= m < |r.ran| ==> j <= r.ran[m].piece <= r.stop)
    && (forall i :: 0 <= i < r.stop - j ==> WentThrough(e, args, ps[i], start + Offset(ps, i), j + i, r.ran))
    && EndsWith(e, args, ps[r.stop - j], start + Offset(ps, r.stop - j), r.stop, r.stop == j + |ps| - 1, r)
  }

  lemma AnswersCons(
    e: Engine, args: seq<Arg>, p: Prep, ps: seq<Prep>, start: nat, j: nat, first: seq<Ran>, rest: Result)
    requires Answers(e, args, ps, start + Count(p), j + 1, rest)
    requires |first| <= 1 && (first != [] ==> first[0].piece == j)
    requires WentThrough(e, args, p, start, j, first)
    ensures Answers(e, args, [p] + ps, start, j, Result(rest.outcome, first + rest.ran, rest.stop))
  {
    hide RunsWith, Count, WentThrough, EndsWith, Offset;
    var all, r := [p] + ps, Result(rest.outcome, first + rest.ran, rest.stop);
    InOrder(first, rest.ran, j, rest.stop);
    OffsetOne(all);
    forall i | 0 <= i < r.stop - j ensures WentThrough(e, args, all[i], start + Offset(all, i), j + i, r.ran) {
      if i == 0 {
        MoreRan(e, args, p, start, j, first, r.ran);
      } else {
        OffsetCons(p, ps, i - 1);
        MoreRan(e, args, ps[i - 1], start + Offset(all, i), j + i, rest.ran, r.ran);
      }
    }
    var i := rest.stop - j - 1;
    OffsetCons(p, ps, i);
    EndsMore(e, args, ps[i], start + Offset(all, i + 1), rest.stop, rest.stop == j + |ps|, rest, r);
  }

  lemma InOrder(first: seq<Ran>, rest: seq<Ran>, j: nat, stop: nat)
    requires |first| <= 1 && (first != [] ==> first[0].piece == j) && j <= stop
    requires forall m, n :: 0 <= m < n < |rest| ==> rest[m].piece < rest[n].piece
    requires forall m :: 0 <= m < |rest| ==> j + 1 <= rest[m].piece <= stop
    ensures var ran := first + rest;
      && (forall m, n :: 0 <= m < n < |ran| ==> ran[m].piece < ran[n].piece)
      && (forall m :: 0 <= m < |ran| ==> j <= ran[m].piece <= stop)
      && (forall x :: x in first || x in rest ==> x in ran)
      && |ran| >= |rest| && (rest != [] ==> ran[|ran| - 1] == rest[|rest| - 1])
  {
  }

  lemma MoreRan(e: Engine, args: seq<Arg>, p: Prep, start: nat, k: nat, ran: seq<Ran>, more: seq<Ran>)
    requires WentThrough(e, args, p, start, k, ran) && forall x :: x in ran ==> x in more
    ensures WentThrough(e, args, p, start, k, more)
  {
    hide RunsWith;
  }

  lemma EndsMore(
    e: Engine, args: seq<Arg>, p: Prep, start: nat, k: nat, last: bool, rest: Result, r: Result)
    requires EndsWith(e, args, p, start, k, last, rest) && r.outcome == rest.outcome
    requires |r.ran| >= |rest.ran| && (rest.ran != [] ==> r.ran[|r.ran| - 1] == rest.ran[|rest.ran| - 1])
    ensures EndsWith(e, args, p, start, k, last, r)
  {
    hide RunsWith, BindFresh, StmtArgs;
  }

  /** One statement: either it goes through, or the run ends at it. */
  lemma OneAnswers(e: Engine, args: seq<Arg>, p: Prep, start: nat, j: nat, last: bool)
    requires start <= |args| && p.Piece? && p.params.Some?
    ensures var one := RunOne(e, args, p.params.value, start, j);
      && |one.ran| <= 1 && (one.ran != [] ==> one.ran[0].piece == j)
      && (one.outcome.Done? ==> WentThrough(e, args, p, start, j, one.ran))
      && (one.outcome.Failed? || last ==> EndsWith(e, args, p, start, j, last, Result(one.outcome, one.ran, j)))
  {
    hide BindFresh, StmtArgs;
    var one := RunOne(e, args, p.params.value, start, j);
    if one.outcome.Done? {
      assert one.ran[0] in one.ran && RunsWith(e, args, p, start, one.ran[0].bound);
    }
  }

  /** For every script and every argument list: the statements run in order, each at most once; every one before the
      piece the run stops at was bound, ran and answered without an error; and the run answers for the piece it stops
      at. In particular an error of any kind ends it. */
  lemma {:induction false} ExecAnswers(e: Engine, args: seq<Arg>, query: string, start: nat, j: nat)
    requires Shortens(e) && start <= |args|
    ensures Answers(e, args, Pieces(e, query, j), start, j, Exec(e, args, query, start, j))
    decreases |query|
  {
    hide RunOne, WentThrough, EndsWith, Answers, Offset;
    var p := e.prepare(j, query);
    var ps := Pieces(e, query, j);
    var r := Exec(e, args, query, start, j);
    if p.PrepError? || p.params.None? {
      NoStatement(e, args, p, start, j, r);
      if p.PrepError? || p.tail == "" {
        Single(e, args, ps, start, j, r);
      } else {
        ExecAnswers(e, args, p.tail, start, j + 1);
        AnswersCons(e, args, p, Pieces(e, p.tail, j + 1), start, j, [], r);
        assert [] + r.ran == r.ran;
      }
    } else {
      var one := RunOne(e, args, p.params.value, start, j);
      OneAnswers(e, args, p, start, j, |ps| == 1);
      if one.outcome.Failed? || p.tail == "" {
        Single(e, args, ps, start, j, r);
      } else {
        ExecAnswers(e, args, p.tail, start + Count(p), j + 1);
        AnswersCons(e, args, p, Pieces(e, p.tail, j + 1), start, j, one.ran,
                    Exec(e, args, p.tail, start + Count(p), j + 1));
      }
    }
  }

  /** The run ends at its first piece. */
  lemma Single(e: Engine, args: seq<Arg>, ps: seq<Prep>, start: nat, j: nat, r: Result)
    requires ps != [] && r.stop == j && |r.ran| <= 1 && (r.ran != [] ==> r.ran[0].piece == j)
    requires EndsWith(e, args, ps[0], start, j, |ps| == 1, r)
    ensures Answers(e, args, ps, start, j, r)
  {
    hide EndsWith, WentThrough;
    OffsetOne(ps);
  }

  /** A piece without a statement. */
  lemma NoStatement(e: Engine, args: seq<Arg>, p: Prep, start: nat, j: nat, r: Result)
    requires p.PrepError? || p.params.None?
    ensures p.Piece? ==> WentThrough(e, args, p, start, j, [])
    ensures p.PrepError? && r.outcome == Failed(PrepareFailed(p.code)) ==> EndsWith(e, args, p, start, j, true, r)
    ensures p.Piece? && r.outcome == Done(0, 0) ==> EndsWith(e, args, p, start, j, true, r)
  {
  }

  // ---- Positional arguments ----

  ghost predicate AllPositional(args: seq<Arg>) {
    forall i :: 0 <= i < |args| ==> args[i].name == ""
  }

  lemma {:induction false} NoneOutside(args: seq<Arg>, start: nat, na: nat, k: nat)
    requires AllPositional(args) && k <= |args|
    ensures NamedOutside(args, start, na, k) == []
  {
    if k > 0 {
      NoneOutside(args, start, na, k - 1);
    }
  }

  /** With positional arguments, the statement of piece k gets exactly the slice of the argument list that
      lies behind the parameters of pieces 0..k-1, in order; and the run fails for lack of arguments exactly
      at the first statement whose running total exceeds the list. */
  lemma PositionalScript(e: Engine, args: seq<Arg>, query: string)
    requires Shortens(e) && AllPositional(args)
    ensures var r := Exec(e, args, query, 0, 0);
      var ps := Pieces(e, query, 0);
      && r.stop < |ps|
      && (forall k :: 0 < k <= r.stop ==> Offset(ps, k) <= |args|)
      && (r.outcome.Failed? && r.outcome.error.NotEnoughArgs? <==> Offset(ps, r.stop + 1) > |args|)
      && forall m :: 0 <= m < |r.ran| ==>
           var k := r.ran[m].piece;
           && k <= r.stop && Offset(ps, k + 1) <= |args|
           && r.ran[m].bound == SqlSlice(args, Offset(ps, k), Count(ps[k]))
  {
    hide BindFresh, StmtArgs;
    ExecConsumes(e, args, query, 0, 0);
    var r := Exec(e, args, query, 0, 0);
    var ps := Pieces(e, query, 0);
    forall m | 0 <= m < |r.ran|
      ensures var k := r.ran[m].piece;
        && k <= r.stop && Offset(ps, k + 1) <= |args|
        && r.ran[m].bound == SqlSlice(args, Offset(ps, k), Count(ps[k]))
    {
      var k := r.ran[m].piece;
      PositionalRun(e, args, ps[k], Offset(ps, k), r.ran[m].bound);
    }
  }

  function SqlSlice(args: seq<Arg>, start: nat, n: nat): seq<SqlValue>
    requires start + n <= |args|
  {
    seq(n, p requires 0 <= p < n => ToSql(args[start + p].value))
  }

  lemma PositionalRun(e: Engine, args: seq<Arg>, p: Prep, start: nat, bound: seq<SqlValue>)
    requires AllPositional(args) && RunsWith(e, args, p, start, bound)
    ensures start + Count(p) <= |args| && bound == SqlSlice(args, start, Count(p))
  {
    hide BindAll;
    var na := Count(p);
    var given := StmtArgs(args, start, na);
    NoneOutside(args, start, na, |args|);
    assert args[start..start + na] + [] == args[start..start + na];
    forall i | 0 <= i < na ensures bound[i] == ToSql(args[start + i].value) {
      PositionalBinding(p.params.value, e.limit, Unbound(na), given, i);
    }
  }

  // ---- What the append loop appends ----

  function Named(args: seq<Arg>): seq<Arg> {
    if args == [] then []
    else
      var n := |args| - 1;
      Named(args[..n]) + if args[n].name != "" then [args[n]] else []
  }

  lemma {:induction false} NamedAppends(xs: seq<Arg>, ys: seq<Arg>)
    ensures Named(xs + ys) == Named(xs) + Named(ys)
  {
    if ys == [] {
      assert xs + ys == xs && Named(xs) + [] == Named(xs);
    } else {
      var n := |ys| - 1;
      assert (xs + ys)[..|xs| + n] == xs + ys[..n];
      NamedAppends(xs, ys[..n]);
    }
  }

  function Max(a: nat, b: nat): nat {
    if a < b then b else a
  }

  lemma {:induction false} AppendedFront(args: seq<Arg>, start: nat, na: nat, k: nat)
    requires k <= start && k <= |args|
    ensures NamedOutside(args, start, na, k) == Named(args[..k])
  {
    NamedSnoc(args, 0, k);
    if k > 0 {
      hide Named;
      AppendedFront(args, start, na, k - 1);
    }
  }

  lemma {:induction false} AppendedMiddle(args: seq<Arg>, start: nat, na: nat, k: nat)
    requires start <= k <= Max(start, na) && k <= |args|
    ensures NamedOutside(args, start, na, k) == Named(args[..start])
    decreases k
  {
    if k == start {
      AppendedFront(args, start, na, k);
    } else {
      AppendedMiddle(args, start, na, k - 1);
    }
  }

  lemma OutsideSnoc(args: seq<Arg>, start: nat, na: nat, k: nat)
    requires 0 < k <= |args| && (k - 1 < start || k - 1 >= na)
    ensures NamedOutside(args, start, na, k) == NamedOutside(args, start, na, k - 1) + Named([args[k - 1]])
  {
    NamedSnoc(args, k - 1, k);
    assert NamedOutside(args, start, na, k - 1) + [] == NamedOutside(args, start, na, k - 1);
  }

  /** The loop appends the named arguments in front of `start`, and then those from `start` or `na` on, whichever
      is greater. */
  lemma {:induction false} AppendedList(args: seq<Arg>, start: nat, na: nat, k: nat)
    requires Max(start, na) <= k <= |args|
    ensures NamedOutside(args, start, na, k) == Named(args[..start]) + Named(args[Max(start, na)..k])
    decreases k
  {
    hide Named, NamedOutside;
    var lo := Max(start, na);
    NamedSnoc(args, lo, k);
    if k == lo {
      AppendedMiddle(args, start, na, k);
      assert Named(args[..start]) + [] == Named(args[..start]);
    } else {
      AppendedList(args, start, na, k - 1);
      OutsideSnoc(args, start, na, k);
      Assoc(Named(args[..start]), Named(args[lo..k - 1]), Named([args[k - 1]]));
    }
  }

  lemma NamedSnoc(args: seq<Arg>, lo: nat, hi: nat)
    requires lo <= hi <= |args|
    ensures lo == hi ==> Named(args[lo..hi]) == []
    ensures lo < hi ==>
      && Named([args[hi - 1]]) == (if args[hi - 1].name != "" then [args[hi - 1]] else [])
      && Named(args[lo..hi]) == Named(args[lo..hi - 1]) + Named([args[hi - 1]])
    ensures args[0..hi] == args[..hi]
    ensures hi > 0 ==> args[0..hi - 1] == args[..hi - 1]
  {
    if lo < hi {
      assert args[lo..hi] == args[lo..hi - 1] + [args[hi - 1]];
      assert [args[hi - 1]][..0] == [];
    }
  }

  /** The comment above the loop promises the named arguments not contained in the slice. For every list, that is
      what is appended exactly if the slice has no named argument from position `na` on; otherwise those are
      appended again. With all arguments named, it fails exactly if `start` and `na` are positive. */
  lemma AppendRepeatsIff(args: seq<Arg>, start: nat, na: nat)
    requires start + na <= |args|
    ensures var again := Named(args[Max(start, na)..start + na]);
      var after := Named(args[start + na..]);
      && NamedOutside(args, start, na, |args|) == Named(args[..start]) + (again + after)
      && (NamedOutside(args, start, na, |args|) == Named(args[..start]) + after <==> again == [])
      && (AllNamed(args) ==> (again != [] <==> start > 0 && na > 0))
  {
    hide Named, NamedOutside, AllNamed;
    var lo := Max(start, na);
    AppendedList(args, start, na, |args|);
    Cancel(Named(args[..start]), Named(args[lo..start + na]), Named(args[start + na..]));
    assert args[lo..|args|] == args[lo..start + na] + args[start + na..];
    NamedAppends(args[lo..start + na], args[start + na..]);
    if AllNamed(args) {
      NamedPart(args, lo, start + na);
    }
    NamedSnoc(args, lo, lo);
  }

  lemma Cancel(x: seq<Arg>, again: seq<Arg>, after: seq<Arg>)
    ensures x + (again + after) == x + after <==> again == []
  {
    if again == [] {
      assert again + after == after;
    } else {
      assert |x + (again + after)| > |x + after|;
    }
  }

  lemma NamedPart(args: seq<Arg>, lo: nat, hi: nat)
    requires lo <= hi <= |args| && AllNamed(args)
    ensures Named(args[lo..hi]) == [] <==> lo == hi
  {
    NamedAll(args[lo..hi]);
  }

  predicate AllNamed(args: seq<Arg>) {
    forall i :: 0 <= i < |args| ==> args[i].name != ""
  }

  lemma {:induction false} NamedAll(args: seq<Arg>)
    requires AllNamed(args)
    ensures Named(args) == args
  {
    if args != [] {
      NamedAll(args[..|args| - 1]);
    }
  }

  lemma {:induction false} OutsideNamed(args: seq<Arg>, start: nat, na: nat, k: nat)
    requires k <= |args|
    ensures AllNamed(NamedOutside(args, start, na, k))
    ensures forall a :: a in NamedOutside(args, start, na, k) ==> a in args
  {
    if k > 0 {
      OutsideNamed(args, start, na, k - 1);
    }
  }

  // ---- Named arguments ----

  /** The last argument of that name. */
  function LastNamed(args: seq<Arg>, n: string): (a: Option<Arg>)
    ensures a.Some? ==> a.value in args && a.value.name == n
    ensures a.None? ==> forall i :: 0 <= i < |args| ==> args[i].name != n
  {
    if args == [] then None
    else if args[|args| - 1].name == n then Some(args[|args| - 1])
    else LastNamed(args[..|args| - 1], n)
  }

  /** Behind position `lo` all arguments are named: the last one named n writes the parameter, and without one it
      is left to the arguments in front of `lo`. */
  lemma {:induction false} NamedWriter(
    params: Params, args: seq<Arg>, lo: nat, k: nat, p: nat, n: string, prefix: string)
    requires lo <= k <= |args| && AllNamed(args[lo..])
    requires Distinct(params) && p < |params| && prefix in [":", "@", "$"] && params[p] == Some(prefix + n)
    ensures var w := LastWriter(params, args, k, p);
      var l := LastNamed(args[lo..k], n);
      if l.Some? then w.Some? && args[w.value] == l.value else w == LastWriter(params, args, lo, p)
    decreases k
  {
    hide Targets, Distinct;
    if k > lo {
      NamedWriter(params, args, lo, k - 1, p, n, prefix);
      assert args[lo..][k - 1 - lo] == args[k - 1];
      NamedTargets(params, args[k - 1], p, n, prefix);
      hide LastNamed;
      LastSnoc(args, lo, k, n);
    }
  }

  lemma LastSnoc(args: seq<Arg>, lo: nat, k: nat, n: string)
    requires lo < k <= |args|
    ensures LastNamed(args[lo..k], n)
         == if args[k - 1].name == n then Some(args[k - 1]) else LastNamed(args[lo..k - 1], n)
  {
    assert args[lo..k][..k - lo - 1] == args[lo..k - 1];
  }

  /** The same arguments, ordinals aside. */
  predicate Alike(a: seq<Arg>, b: seq<Arg>) {
    |a| == |b| && forall i :: 0 <= i < |a| ==> a[i].name == b[i].name && a[i].value == b[i].value
  }

  lemma {:induction false} LastAlike(a: seq<Arg>, b: seq<Arg>, n: string)
    requires Alike(a, b)
    ensures var x, y := LastNamed(a, n), LastNamed(b, n);
      x.Some? == y.Some? && (x.Some? ==> x.value.value == y.value.value)
  {
    if a != [] {
      LastAlike(a[..|a| - 1], b[..|b| - 1], n);
    }
  }

  /** Of the first `k` arguments of a slice, the last that is named n or stands, without a name, at place p. */
  function LastInSlice(slice: seq<Arg>, k: nat, n: string, p: nat): Option<Arg>
    requires k <= |slice|
  {
    if k == 0 then None
    else if slice[k - 1].name != "" && slice[k - 1].name == n then Some(slice[k - 1])
    else if slice[k - 1].name == "" && k - 1 == p then Some(slice[k - 1])
    else LastInSlice(slice, k - 1, n, p)
  }

  lemma {:induction false} SliceNamed(slice: seq<Arg>, k: nat, n: string, p: nat)
    requires k <= |slice| && AllNamed(slice)
    ensures LastInSlice(slice, k, n, p) == LastNamed(slice[..k], n)
  {
    if k > 0 {
      SliceNamed(slice, k - 1, n, p);
      assert slice[..k][..k - 1] == slice[..k - 1];
    }
  }

  lemma {:induction false} SliceWriter(
    params: Params, given: seq<Arg>, slice: seq<Arg>, k: nat, p: nat, n: string, prefix: string)
    requires k <= |slice| <= |given| && Alike(given[..|slice|], slice)
    requires forall i :: 0 <= i < |given| ==> given[i].ordinal == i + 1
    requires Distinct(params) && p < |params| && prefix in [":", "@", "$"] && params[p] == Some(prefix + n)
    ensures var w := LastWriter(params, given, k, p);
      var l := LastInSlice(slice, k, n, p);
      w.Some? == l.Some? && (l.Some? ==> given[w.value].value == l.value.value)
  {
    if k > 0 {
      SliceWriter(params, given, slice, k - 1, p, n, prefix);
      hide Index, NamedRow;
      var a := given[k - 1];
      assert a == given[..|slice|][k - 1];
      if a.name == "" {
        assert Targets(params, a) == [k, 0, 0];
      } else {
        hide Targets;
        NamedTargets(params, a, p, n, prefix);
      }
    }
  }

  /** Every list of arguments, repeated names and positional ones included: a parameter `:n`, `@n` or `$n` gets the
      last argument named n among the appended ones. If there is none, it gets the last one in the slice that is
      named n or stands, without a name, at the parameter's place; and NULL if there is none either. */
  lemma NamedRun(
    e: Engine, args: seq<Arg>, piece: Prep, start: nat, bound: seq<SqlValue>, p: nat, prefix: string, n: string)
    requires prefix in [":", "@", "$"] && RunsWith(e, args, piece, start, bound)
    requires var params := piece.params.value; Distinct(params) && p < |params| && params[p] == Some(prefix + n)
    ensures |bound| == Count(piece)
    ensures bound[p] == NamedValue(args, start, Count(piece), p, n)
  {
    hide NamedOutside, LastNamed, LastInSlice, LastWriter, BindAll;
    var params, na := piece.params.value, Count(piece);
    var slice, outside := args[start..start + na], NamedOutside(args, start, na, |args|);
    var given := StmtArgs(args, start, na);
    LastWriterWins(params, e.limit, Unbound(na), given, |given|, p);
    OutsideNamed(args, start, na, |args|);
    assert Alike(given[na..|given|], outside) && given[na..|given|] == given[na..];
    LastAlike(given[na..|given|], outside, n);
    NamedWriter(params, given, na, |given|, p, n, prefix);
    assert Alike(given[..na], slice);
    SliceWriter(params, given, slice, na, p, n, prefix);
  }

  /** The value that rule gives. */
  function NamedValue(args: seq<Arg>, start: nat, na: nat, p: nat, n: string): SqlValue
    requires start + na <= |args|
  {
    var appended := LastNamed(NamedOutside(args, start, na, |args|), n);
    var sliced := LastInSlice(args[start..start + na], na, n, p);
    if appended.Some? then ToSql(appended.value.value)
    else if sliced.Some? then ToSql(sliced.value.value)
    else SqlNull
  }

  /** For every script and every argument list, what a named parameter of a statement that runs is bound to. */
  lemma NamedScript(e: Engine, args: seq<Arg>, query: string, m: nat, p: nat, prefix: string, n: string)
    requires Shortens(e) && prefix in [":", "@", "$"] && m < |Exec(e, args, query, 0, 0).ran|
    ensures var r := Exec(e, args, query, 0, 0);
      var ps, k := Pieces(e, query, 0), r.ran[m].piece;
      && k < |ps| && ps[k].Piece? && ps[k].params.Some? && Offset(ps, k) + Count(ps[k]) <= |args|
      && |r.ran[m].bound| == Count(ps[k])
      && var params := ps[k].params.value;
         Distinct(params) && p < |params| && params[p] == Some(prefix + n) ==>
           r.ran[m].bound[p] == NamedValue(args, Offset(ps, k), Count(ps[k]), p, n)
  {
    hide BindFresh, StmtArgs, NamedValue, Distinct;
    ExecConsumes(e, args, query, 0, 0);
    var r := Exec(e, args, query, 0, 0);
    var ps, k := Pieces(e, query, 0), r.ran[m].piece;
    assert RunsWith(e, args, ps[k], Offset(ps, k), r.ran[m].bound);
    var params := ps[k].params.value;
    if Distinct(params) && p < |params| && params[p] == Some(prefix + n) {
      NamedRun(e, args, ps[k], Offset(ps, k), r.ran[m].bound, p, prefix, n);
    }
  }

  predicate NamedDistinctly(args: seq<Arg>) {
    && AllNamed(args)
    && (forall i, j :: 0 <= i < j < |args| ==> args[i].name != args[j].name)
  }

  lemma {:induction false} OutsideIs(args: seq<Arg>, start: nat, na: nat, k: nat, i: nat)
    requires i < k <= |args| && args[i].name != ""
    ensures i < start || i >= na ==> args[i] in NamedOutside(args, start, na, k)
  {
    if i < k - 1 {
      OutsideIs(args, start, na, k - 1, i);
    }
  }

  /** Every named argument reaches every statement, and nothing foreign does. */
  lemma EveryArgGiven(args: seq<Arg>, start: nat, na: nat, i: nat)
    requires start + na <= |args| && i < |args| && args[i].name != ""
    ensures var given := StmtArgs(args, start, na);
      && (exists k :: 0 <= k < |given| && given[k].name == args[i].name && given[k].value == args[i].value)
      && (forall k :: 0 <= k < |given| ==>
            exists a :: a in args && given[k].name == a.name && given[k].value == a.value)
  {
    hide NamedOutside;
    var outside := NamedOutside(args, start, na, |args|);
    var list := args[start..start + na] + outside;
    OutsideIs(args, start, na, |args|, i);
    OutsideNamed(args, start, na, |args|);
    var given := StmtArgs(args, start, na);
    assert args[i] in list by {
      if start <= i < na {
        assert list[i - start] == args[i];
      }
    }
    var k :| 0 <= k < |list| && list[k] == args[i];
    assert given[k].name == args[i].name && given[k].value == args[i].value;
    forall k | 0 <= k < |given| ensures exists a :: a in args && given[k].name == a.name && given[k].value == a.value {
      assert list[k] in args;
      assert given[k].name == list[k].name && given[k].value == list[k].value;
    }
  }

  /** With arguments named distinctly, every parameter `:n`, `@n` or `$n` of every statement that runs is
      bound to the argument named n. */
  lemma DistinctScript(e: Engine, args: seq<Arg>, query: string, m: nat, p: nat, prefix: string, i: nat)
    requires Shortens(e) && NamedDistinctly(args) && i < |args| && prefix in [":", "@", "$"]
    requires m < |Exec(e, args, query, 0, 0).ran|
    ensures var r := Exec(e, args, query, 0, 0);
      var ps, k := Pieces(e, query, 0), r.ran[m].piece;
      && k < |ps| && ps[k].Piece? && ps[k].params.Some? && |r.ran[m].bound| == Count(ps[k])
      && var params := ps[k].params.value;
         Distinct(params) && p < |params| && params[p] == Some(prefix + args[i].name) ==>
           r.ran[m].bound[p] == ToSql(args[i].value)
  {
    hide Exec, Pieces, Offset, Distinct, RunsWith, NamedValue;
    NamedScript(e, args, query, m, p, prefix, args[i].name);
    var k := Exec(e, args, query, 0, 0).ran[m].piece;
    var start, na := Offset(Pieces(e, query, 0), k), Count(Pieces(e, query, 0)[k]);
    if p < na {
      OnlyOne(args, start, na, p, i);
    }
  }

  lemma OnlyOne(args: seq<Arg>, start: nat, na: nat, p: nat, i: nat)
    requires start + na <= |args| && NamedDistinctly(args) && i < |args|
    ensures NamedValue(args, start, na, p, args[i].name) == ToSql(args[i].value)
  {
    hide LastNamed, LastInSlice, NamedOutside, NamedDistinctly;
    assert args[i].name != "" && AllNamed(args) by { NameUnique(args, i, args[i]); }
    OutsideIs(args, start, na, |args|, i);
    OutsideNamed(args, start, na, |args|);
    var outside, slice := NamedOutside(args, start, na, |args|), args[start..start + na];
    var appended, sliced := LastNamed(outside, args[i].name), LastNamed(slice, args[i].name);
    SliceNamed(slice, na, args[i].name, p);
    assert slice[..na] == slice;
    if appended.Some? {
      NameUnique(args, i, appended.value);
    } else {
      assert slice[i - start] == args[i];
      NameUnique(args, i, sliced.value);
    }
  }

  lemma NameUnique(args: seq<Arg>, i: nat, a: Arg)
    requires NamedDistinctly(args) && i < |args| && a in args && a.name == args[i].name
    ensures a == args[i] && AllNamed(args)
  {
    var k :| 0 <= k < |args| && args[k] == a;
  }

  // ---- Repeated names, in a script of two statements ----

  const ONE: Params := [Some(":a")]
  const TWO: Params := [Some(":a"), Some(":c")]

  /** The first piece of a text of several characters has the parameter `:a`, the last one `:a` and `:c`. */
  const ENGINE := Engine(
    (j: nat, q: string) => if j == 0 && |q| > 1 then Piece(Some(ONE), q[1..]) else Piece(Some(TWO), ""),
    (j: nat, b: seq<SqlValue>) => StepOk(0, 0), 100)

  const REPEATED := [Arg("a", 1, GoValue.Int(1)), Arg("a", 2, GoValue.Int(2)), Arg("c", 3, GoValue.Int(3))]

  lemma Appended()
    ensures NamedOutside(REPEATED, 0, 1, 3) == [REPEATED[1], REPEATED[2]]
    ensures NamedOutside(REPEATED, 1, 2, 3) == [REPEATED[0], REPEATED[2]]
  {
    assert NamedOutside(REPEATED, 0, 1, 0) == NamedOutside(REPEATED, 0, 1, 1) == [];
    assert NamedOutside(REPEATED, 1, 2, 1) == NamedOutside(REPEATED, 1, 2, 2) == [REPEATED[0]];
  }

  lemma NamedValues()
    ensures NamedValue(REPEATED, 0, 1, 0, "a") == SqlInt(2)
    ensures NamedValue(REPEATED, 1, 2, 0, "a") == SqlInt(1) && NamedValue(REPEATED, 1, 2, 1, "c") == SqlInt(3)
  {
    hide NamedOutside, LastInSlice;
    Appended();
    assert [REPEATED[1], REPEATED[2]][..1] == [REPEATED[1]];
    assert [REPEATED[0], REPEATED[2]][..1] == [REPEATED[0]];
    assert "a"[0] != "c"[0];
    assert LastNamed([REPEATED[1]], "a") == Some(REPEATED[1]);
    assert LastNamed([REPEATED[0]], "a") == Some(REPEATED[0]);
  }

  lemma Names()
    ensures Distinct(ONE) && Distinct(TWO)
    ensures ONE[0] == TWO[0] == Some(":" + "a") && TWO[1] == Some(":" + "c")
  {
    assert ":" + "a" == ":a" && ":" + "c" == ":c" && ":a"[1] != ":c"[1];
  }

  lemma FirstRuns()
    ensures RunOne(ENGINE, REPEATED, ONE, 0, 0) == One(Done(0, 0), [Ran(0, [SqlInt(2)])])
  {
    hide NamedOutside, NamedValue, BindAll, LastInSlice, Distinct;
    Appended();
    Names();
    NamedValues();
    var given := StmtArgs(REPEATED, 0, 1);
    BindSucceeds(ONE, 100, Unbound(1), given, |given|);
    NamedRun(ENGINE, REPEATED, Piece(Some(ONE), ";"), 0, BindFresh(ONE, 100, given).at, 0, ":", "a");
    assert BindFresh(ONE, 100, given).at == [SqlInt(2)];
  }

  lemma SecondRuns()
    ensures RunOne(ENGINE, REPEATED, TWO, 1, 1) == One(Done(0, 0), [Ran(1, [SqlInt(1), SqlInt(3)])])
  {
    hide NamedOutside, NamedValue, BindAll, LastInSlice, Distinct;
    Appended();
    Names();
    NamedValues();
    var given := StmtArgs(REPEATED, 1, 2);
    BindSucceeds(TWO, 100, Unbound(2), given, |given|);
    var bound := BindFresh(TWO, 100, given).at;
    NamedRun(ENGINE, REPEATED, Piece(Some(TWO), ""), 1, bound, 0, ":", "a");
    NamedRun(ENGINE, REPEATED, Piece(Some(TWO), ""), 1, bound, 1, ":", "c");
    assert bound == [SqlInt(1), SqlInt(3)];
  }

  /** With repeated names, the same list serves two statements differently: of a=1, a=2, c=3, the first statement
      runs with a=2, and the second with a=1. */
  lemma RepeatedNames()
    ensures Shortens(ENGINE)
    ensures Exec(ENGINE, REPEATED, "1;", 0, 0)
         == Result(Done(0, 0), [Ran(0, [SqlInt(2)]), Ran(1, [SqlInt(1), SqlInt(3)])], 1)
  {
    hide RunOne;
    FirstRuns();
    SecondRuns();
    assert "1;"[1..] == ";";
    assert Exec(ENGINE, REPEATED, ";", 1, 1) == Result(Done(0, 0), [Ran(1, [SqlInt(1), SqlInt(3)])], 1);
  }

  // ---- Values that fit ----

  predicate AllFit(args: seq<Arg>, limit: nat) {
    forall i :: 0 <= i < |args| ==> ToSql(args[i].value).Size() <= limit
  }

  lemma StatementFits(e: Engine, args: seq<Arg>, params: Params, start: nat, j: nat)
    requires start <= |args| && AllFit(args, e.limit)
    ensures var one := RunOne(e, args, params, start, j); one.outcome.Failed? ==> !one.outcome.error.BindFailed?
  {
    hide BindAll, NamedOutside, SqlValue.Size, ToSql;
    var na := |params|;
    if start + na <= |args| {
      var given := StmtArgs(args, start, na);
      OutsideNamed(args, start, na, |args|);
      var list := args[start..start + na] + NamedOutside(args, start, na, |args|);
      forall i | 0 <= i < |given|
        ensures given[i].name != "" || 0 <= given[i].ordinal <= na
        ensures ToSql(given[i].value).Size() <= e.limit
      {
        assert given[i] == list[i].(ordinal := i + 1) && list[i] in args;
        assert i >= na ==> list[i] == NamedOutside(args, start, na, |args|)[i - na];
      }
      BindSucceeds(params, e.limit, Unbound(na), given, |given|);
    }
  }

  /** If no value is too long, no statement of any script fails in the binding, whatever mixture of named and
      positional arguments it is given. */
  lemma {:induction false} NeverBindFailed(e: Engine, args: seq<Arg>, query: string, start: nat, j: nat)
    requires Shortens(e) && start <= |args| && AllFit(args, e.limit)
    ensures var r := Exec(e, args, query, start, j); r.outcome.Failed? ==> !r.outcome.error.BindFailed?
    decreases |query|
  {
    hide RunOne, AllFit;
    var p := e.prepare(j, query);
    if p.Piece? {
      if p.params.Some? {
        StatementFits(e, args, p.params.value, start, j);
      }
      if p.tail != "" && start + Count(p) <= |args| {
        NeverBindFailed(e, args, p.tail, start + Count(p), j + 1);
      }
    }
  }

  // ---- The result ----

  /** A run that succeeds answers with its last piece alone: the result of that piece's statement, or zeros
      when the piece is only white space or a comment, whatever ran before. */
  lemma {:induction false} LastPieceAnswers(e: Engine, args: seq<Arg>, query: string, start: nat, j: nat)
    requires Shortens(e) && start <= |args| && Exec(e, args, query, start, j).outcome.Done?
    ensures var r := Exec(e, args, query, start, j);
      var ps := Pieces(e, query, j);
      var last := ps[|ps| - 1];
      && r.stop == j + |ps| - 1 && last.Piece?
      && (last.params.None? ==> r.outcome == Done(0, 0))
      && (last.params.Some? ==>
            && r.ran != [] && r.ran[|r.ran| - 1].piece == r.stop
            && e.step(r.stop, r.ran[|r.ran| - 1].bound) == StepOk(r.outcome.id, r.outcome.changes))
    decreases |query|
  {
    hide StmtArgs, BindFresh;
    var p := e.prepare(j, query);
    if p.Piece? && p.tail != "" {
      LastPieceAnswers(e, args, p.tail, start + Count(p), j + 1);
    }
  }
}
